/**
 * The analytics request as a state machine over a checkpointed state: routing, clarification,
 * validation with one repair, and execution. A turn starts from whatever an earlier turn left behind.
 */
module Workflow {
  import opened Wrappers
  import L = EntityLookup
  import C = Composition

  // ---------------------------------------------------------------------------------------------
  // State

  datatype Route = GovernedMetric | AdhocAnalytics | ClarifyRoute | BlockRoute

  datatype Action = Execute | Clarify | Block

  datatype Filter = Filter(dimension: string, value: string)

  datatype MetricQuery = MetricQuery(metric: string, dimensions: seq<string>, filters: seq<Filter>)

  /** One option of a clarification. */
  datatype Choice = Choice(canonicalKey: string, displayValue: string, canonicalColumn: string, displayColumn: string)

  datatype PinnedEntity = PinnedEntity(entity: string, choice: Choice)

  datatype PendingChoice = PendingChoice(entityName: string, originalQuestion: string, choices: seq<Choice>)

  datatype ClarificationState = NotNeeded | Required | Blocked

  /** What a completed turn leaves for the next one to read. */
  datatype AnalyticalContext = AnalyticalContext(
    previousQuestion: string,
    resolvedQuestion: string,
    clarificationState: ClarificationState,
    executionRoute: Option<Route>,
    metricQuery: Option<MetricQuery>,
    pendingChoice: Option<PendingChoice>)

  datatype Validation = Validation(
    isValid: bool,
    validatedSql: Option<string>,
    errorCode: Option<string>,
    repairable: bool)

  const FORBIDDEN_SCHEMA := "forbidden_schema"

  datatype AgentState = AgentState(
    question: string,
    resolvedQuestion: string,
    authorizedMetrics: set<string>,
    pinnedEntities: seq<PinnedEntity>,
    resolvedEntities: seq<PinnedEntity>,
    pendingChoice: Option<PendingChoice>,
    temporalRepairHint: Option<string>,
    modelAction: Action,
    executionRoute: Route,
    needsClarification: bool,
    clarificationQuestion: Option<string>,
    blockReason: Option<string>,
    generatedSql: Option<string>,
    validatedSql: Option<string>,
    validation: Option<Validation>,
    validationAttempts: nat,
    repairAttempted: bool,
    repairSucceeded: bool,
    initialErrorCode: Option<string>,
    metricQuery: Option<MetricQuery>,
    additionalQueries: seq<MetricQuery>,
    context: Option<AnalyticalContext>,
    answers: nat)

  // ---------------------------------------------------------------------------------------------
  // What is outside the graph

  /** `entityValues` and `plannerEntityValues`: whether a lookup gateway and a semantic model are configured. */
  datatype Config = Config(
    routerEnabled: bool,
    semanticGoverned: bool,
    generateAnswer: bool,
    metricGateway: bool,
    entityValues: bool,
    plannerEntityValues: bool)

  datatype EntityResolution =
    | Unresolved
    | Ambiguous(entityName: string, candidates: seq<Choice>, actionable: bool)
    | Resolved(entity: PinnedEntity, actionable: bool)

  /** The router's decision, and the dimensions of its one metric candidate when there is just one. */
  datatype RouteDecision = RouteDecision(
    route: Route,
    unauthorizedMetric: bool,
    clarificationQuestion: Option<string>,
    blockReason: Option<string>,
    planDimensions: seq<string>)

  datatype IntentOutcome =
    | IntentClarify(question: string)
    | NoPlan
    | MetricPlan(primary: MetricQuery, extra: seq<MetricQuery>)

  /** A dimension of a certified metric, and the confirmed entity its attribute belongs to, if any. */
  datatype MetricDimension = MetricDimension(key: string, entity: Option<string>)

  datatype Generation = Generation(
    action: Action, sql: Option<string>, clarificationQuestion: Option<string>, blockReason: Option<string>)

  /** One request, with what every service it may reach would answer. `None` is a service that fails. */
  datatype Turn = Turn(
    question: string,
    names: (string, string) -> bool,
    authorized: Option<set<string>>,
    source: L.Source,
    actionable: seq<L.Candidate> -> bool,
    route: RouteDecision,
    intent: IntentOutcome,
    metricDimensions: string -> Option<seq<MetricDimension>>,
    planned: Option<MetricQuery>,
    generation: Option<Generation>,
    repaired: Option<string>,
    validate: string -> Validation,
    temporalProblem: string -> Option<string>,
    executes: string -> bool,
    measures: MetricQuery -> Option<seq<C.Row>>,
    grounded: bool)

  /**
   * What leaves the graph towards a validator, a repair model, the database or the metric provider.
   * `Executed` is SQL a model wrote; `LookedUp` is a lookup of entity values.
   */
  datatype Event =
    | LookedUp(lookup: L.Lookup)
    | Validated(candidate: string)
    | Repaired(sql: string)
    | Executed(sql: string)
    | Queried(query: MetricQuery)

  datatype Visit = Updated(state: AgentState, events: seq<Event>) | Raised(events: seq<Event>)

  // ---------------------------------------------------------------------------------------------
  // The nodes

  /** Two states that work on the same request, in the same thread. */
  predicate SameRequest(a: AgentState, b: AgentState) {
    && a.question == b.question && a.pinnedEntities == b.pinnedEntities
    && a.pendingChoice == b.pendingChoice && a.context == b.context
  }

  predicate SameMetrics(a: AgentState, b: AgentState) {
    && a.authorizedMetrics == b.authorizedMetrics
    && a.metricQuery == b.metricQuery && a.additionalQueries == b.additionalQueries
  }

  predicate SameSql(a: AgentState, b: AgentState) {
    && a.generatedSql == b.generatedSql && a.validatedSql == b.validatedSql
    && a.validationAttempts == b.validationAttempts && a.repairAttempted == b.repairAttempted
  }

  /** The questions of the request, its place in the thread, and what is known of errors and repairs. */
  predicate SameBackground(a: AgentState, b: AgentState) {
    && a.resolvedQuestion == b.resolvedQuestion && a.answers == b.answers
    && a.temporalRepairHint == b.temporalRepairHint && a.initialErrorCode == b.initialErrorCode
    && a.repairSucceeded == b.repairSucceeded
  }

  function Selected(names: (string, string) -> bool, question: string, choices: seq<Choice>): (r: seq<Choice>)
    ensures forall c :: c in r ==> c in choices && names(question, c.canonicalKey)
  {
    if choices == [] then []
    else (if names(question, choices[0].canonicalKey) then [choices[0]] else []) + Selected(names, question, choices[1..])
  }

  /** The question to work on, and the entity a reply pinned, if the turn is a reply. */
  function ResumeClarified(turn: Turn, context: Option<AnalyticalContext>): (string, seq<PinnedEntity>) {
    if context.None? || context.value.clarificationState != Required || context.value.pendingChoice.None? then
      (turn.question, [])
    else
      var pending := context.value.pendingChoice.value;
      var selected := Selected(turn.names, turn.question, pending.choices);
      if |selected| != 1 then (turn.question, [])
      else (pending.originalQuestion, [PinnedEntity(pending.entityName, selected[0])])
  }

  function PrepareRequest(turn: Turn, s: AgentState): (r: AgentState)
    ensures SameMetrics(r, s) && r.context == s.context
  {
    var resumed := ResumeClarified(turn, s.context);
    s.(question := turn.question,
       resolvedQuestion := resumed.0, pinnedEntities := resumed.1, resolvedEntities := [],
       generatedSql := None, validatedSql := None,
       needsClarification := false, clarificationQuestion := None, pendingChoice := None, blockReason := None,
       modelAction := Execute, executionRoute := AdhocAnalytics,
       validationAttempts := 0, repairAttempted := false, repairSucceeded := false, initialErrorCode := None)
  }

  /** The choices a clarification offers: the candidates that have a canonical key. */
  function OfferedChoices(candidates: seq<Choice>): (r: seq<Choice>)
    ensures forall c :: c in r ==> c in candidates && c.canonicalKey != ""
  {
    if candidates == [] then []
    else (if candidates[0].canonicalKey != "" then [candidates[0]] else []) + OfferedChoices(candidates[1..])
  }

  function ColumnName(schema: string, table: string, column: string): string {
    schema + "." + table + "." + column
  }

  function ChoiceOf(c: L.Candidate): Choice {
    Choice(c.canonicalKey, c.displayValue,
           ColumnName(c.binding.schema, c.binding.table, c.binding.canonicalColumn),
           ColumnName(c.binding.schema, c.binding.table, c.binding.displayColumn))
  }

  function ChoicesOf(cs: seq<L.Candidate>): (choices: seq<Choice>)
    ensures |choices| == |cs| && forall i :: 0 <= i < |choices| ==> choices[i] == ChoiceOf(cs[i])
  {
    seq(|cs|, i requires 0 <= i < |cs| => ChoiceOf(cs[i]))
  }

  /** The one entity the candidates are values of, if it is one. */
  function LabelOf(cs: seq<L.Candidate>): string {
    if cs != [] && forall i :: 0 <= i < |cs| ==> cs[i].binding.entityName == cs[0].binding.entityName
    then cs[0].binding.entityName
    else "entity"
  }

  function ResolutionOf(turn: Turn, cs: seq<L.Candidate>): EntityResolution {
    if cs == [] then Unresolved
    else if |cs| == 1 then Resolved(PinnedEntity(cs[0].binding.entityName, ChoiceOf(cs[0])), turn.actionable(cs))
    else Ambiguous(LabelOf(cs), ChoicesOf(cs), turn.actionable(cs))
  }

  /** What the question's entity values resolve to, unless a lookup fails, and the lookups sent. */
  function QuestionEntities(cfg: Config, turn: Turn): (Option<EntityResolution>, seq<L.Lookup>) {
    if !cfg.entityValues then (Some(Unresolved), [])
    else
      var r := L.Resolve(turn.source, turn.question, None);
      (if r.0.None? then None else Some(ResolutionOf(turn, r.0.value)), r.1)
  }

  function Entities(cfg: Config, turn: Turn): EntityResolution {
    var r := QuestionEntities(cfg, turn).0;
    if r.None? then Unresolved else r.value
  }

  function Sent(ls: seq<L.Lookup>): (events: seq<Event>)
    ensures |events| == |ls| && forall i :: 0 <= i < |events| ==> events[i] == LookedUp(ls[i])
    ensures OnlyLookups(events)
  {
    seq(|ls|, i requires 0 <= i < |ls| => LookedUp(ls[i]))
  }

  predicate OnlyLookups(events: seq<Event>) {
    forall e :: e in events ==> e.LookedUp?
  }

  function PendingOf(cfg: Config, turn: Turn): PendingChoice
    requires Entities(cfg, turn).Ambiguous?
  {
    PendingChoice(Entities(cfg, turn).entityName, turn.question, OfferedChoices(Entities(cfg, turn).candidates))
  }

  function ChoicesText(candidates: seq<Choice>): string {
    if candidates == [] then ""
    else
      candidates[0].canonicalKey + " | " + candidates[0].displayValue
      + (if |candidates| == 1 then "" else "; ") + ChoicesText(candidates[1..])
  }

  /** The state once the question's entities are known: asked about, pinned down, or left alone. */
  function WithEntities(cfg: Config, turn: Turn, s: AgentState): (r: AgentState)
    ensures SameMetrics(r, s) && SameSql(r, s) && SameBackground(r, s)
    ensures SameRequest(r.(pendingChoice := s.pendingChoice), s)
  {
    match Entities(cfg, turn)
    case Ambiguous(entityName, candidates, true) =>
      s.(executionRoute := ClarifyRoute, modelAction := Clarify, needsClarification := true,
         clarificationQuestion := Some("Which " + entityName + " do you mean: " + ChoicesText(candidates) + "?"),
         pendingChoice := Some(PendingOf(cfg, turn)))
    case Resolved(entity, true) => s.(resolvedEntities := [entity])
    case _ => s
  }

  function ResolveQuestionEntities(cfg: Config, turn: Turn, s: AgentState): (v: Visit)
    ensures OnlyLookups(v.events)
    ensures v.Updated? ==> SameMetrics(v.state, s) && SameSql(v.state, s) && SameBackground(v.state, s)
    ensures v.Updated? ==> SameRequest(v.state.(pendingChoice := s.pendingChoice), s)
  {
    if s.pinnedEntities != [] then Updated(s.(resolvedEntities := s.pinnedEntities), [])
    else
      var r := QuestionEntities(cfg, turn);
      if r.0.None? then Raised(Sent(r.1)) else Updated(WithEntities(cfg, turn, s), Sent(r.1))
  }

  function RouteQuery(cfg: Config, turn: Turn, s: AgentState): (v: Visit)
    ensures v.events == []
    ensures v.Updated? ==> SameRequest(v.state, s) && SameMetrics(v.state, s) && SameSql(v.state, s)
    ensures v.Updated? ==> SameBackground(v.state, s)
  {
    var d := turn.route;
    if d.unauthorizedMetric && !cfg.semanticGoverned then Raised([])
    else
      var route := if d.unauthorizedMetric then AdhocAnalytics else d.route;
      var routed := s.(executionRoute := route, modelAction := Execute);
      Updated(
        match route
        case ClarifyRoute =>
          routed.(modelAction := Clarify, needsClarification := true, clarificationQuestion := d.clarificationQuestion)
        case BlockRoute => routed.(modelAction := Block, blockReason := d.blockReason)
        case _ => routed,
        [])
  }

  function PlanMetricIntent(turn: Turn, s: AgentState): (r: AgentState)
    ensures SameRequest(r, s) && SameSql(r, s) && SameBackground(r, s) && r.authorizedMetrics == s.authorizedMetrics
  {
    match turn.intent
    case IntentClarify(question) =>
      s.(executionRoute := ClarifyRoute, modelAction := Clarify, needsClarification := true,
         clarificationQuestion := Some(question))
    case NoPlan => s.(executionRoute := AdhocAnalytics)
    case MetricPlan(primary, extra) =>
      s.(executionRoute := GovernedMetric, metricQuery := Some(primary), additionalQueries := extra)
  }

  function Without(filters: seq<Filter>, replaced: seq<Filter>): seq<Filter> {
    if filters == [] then []
    else
      (if exists f :: f in replaced && f.dimension == filters[0].dimension then [] else [filters[0]])
      + Without(filters[1..], replaced)
  }

  function Applicable(filters: seq<Filter>, metric: string, offers: (string, string) -> bool): seq<Filter> {
    if filters == [] then []
    else (if offers(metric, filters[0].dimension) then [filters[0]] else []) + Applicable(filters[1..], metric, offers)
  }

  function Filtered(q: MetricQuery, filters: seq<Filter>, offers: (string, string) -> bool): (r: MetricQuery)
    ensures r.metric == q.metric && r.dimensions == q.dimensions
  {
    q.(filters := Without(q.filters, filters) + Applicable(filters, q.metric, offers))
  }

  function FilteredAll(qs: seq<MetricQuery>, filters: seq<Filter>, offers: (string, string) -> bool): (r: seq<MetricQuery>)
    ensures Metrics(r) == Metrics(qs)
  {
    if qs == [] then [] else
      var rest := FilteredAll(qs[1..], filters, offers);
      assert ([Filtered(qs[0], filters, offers)] + rest)[1..] == rest;
      [Filtered(qs[0], filters, offers)] + rest
  }

  function Metrics(qs: seq<MetricQuery>): seq<string> {
    if qs == [] then [] else [qs[0].metric] + Metrics(qs[1..])
  }

  /** The entity dimensions of some queries' metrics, metric after metric: dimension and entity. */
  function EntityDimensions(dimensions: seq<MetricDimension>): seq<(string, string)> {
    if dimensions == [] then []
    else
      (if dimensions[0].entity.Some? then [(dimensions[0].key, dimensions[0].entity.value)] else [])
      + EntityDimensions(dimensions[1..])
  }

  function DimensionsToResolve(turn: Turn, qs: seq<MetricQuery>): seq<(string, string)> {
    if qs == [] then []
    else
      var known := turn.metricDimensions(qs[0].metric);
      (if known.None? then [] else EntityDimensions(known.value)) + DimensionsToResolve(turn, qs[1..])
  }

  predicate Offers(turn: Turn, metric: string, dimension: string) {
    var known := turn.metricDimensions(metric);
    known.Some? && exists i :: 0 <= i < |known.value| && known.value[i].key == dimension
  }

  /** A later value of a dimension replaces an earlier one where it stood. */
  function PutFilter(filters: seq<Filter>, f: Filter): seq<Filter> {
    if filters == [] then [f]
    else if filters[0].dimension == f.dimension then [f] + filters[1..]
    else [filters[0]] + PutFilter(filters[1..], f)
  }

  datatype Narrowing = LookupFailed | AmbiguousValue(question: string) | Narrowed(filters: seq<Filter>)

  /** Dimension after dimension, until a lookup fails or a value could be several. */
  function Narrow(turn: Turn, dimensions: seq<(string, string)>, filters: seq<Filter>): (Narrowing, seq<L.Lookup>)
    decreases |dimensions|
  {
    if dimensions == [] then (Narrowed(filters), [])
    else
      var r := L.Resolve(turn.source, turn.question, Some(dimensions[0].1));
      if r.0.None? then (LookupFailed, r.1)
      else if |r.0.value| > 1 then
        (AmbiguousValue("Which " + dimensions[0].1 + " do you mean: " + ChoicesText(ChoicesOf(r.0.value)) + "?"), r.1)
      else
        var narrowed := if r.0.value == [] then filters
          else PutFilter(filters, Filter(dimensions[0].0, r.0.value[0].displayValue));
        var rest := Narrow(turn, dimensions[1..], narrowed);
        (rest.0, r.1 + rest.1)
  }

  /** The state once every query has the filters its metric offers. */
  function WithFilters(turn: Turn, s: AgentState, filters: seq<Filter>): (r: AgentState)
    requires s.metricQuery.Some?
    ensures SameRequest(r, s) && SameSql(r, s) && SameBackground(r, s) && r.authorizedMetrics == s.authorizedMetrics
    ensures r.executionRoute == GovernedMetric
    ensures r.needsClarification == s.needsClarification && r.modelAction == s.modelAction
    ensures r.metricQuery.Some? && r.metricQuery.value.metric == s.metricQuery.value.metric
    ensures Metrics(r.additionalQueries) == Metrics(s.additionalQueries)
  {
    var offers := (metric, dimension) => Offers(turn, metric, dimension);
    s.(executionRoute := GovernedMetric,
       metricQuery := Some(Filtered(s.metricQuery.value, filters, offers)),
       additionalQueries := FilteredAll(s.additionalQueries, filters, offers))
  }

  function ResolveMetricEntities(cfg: Config, turn: Turn, s: AgentState): (v: Visit)
    ensures OnlyLookups(v.events)
    ensures v.Updated? ==>
      SameRequest(v.state, s) && SameSql(v.state, s) && SameBackground(v.state, s)
      && v.state.authorizedMetrics == s.authorizedMetrics
  {
    if !cfg.entityValues then Updated(s.(executionRoute := GovernedMetric), [])
    else if s.metricQuery.None? then Raised([])
    else
      var r := Narrow(turn, DimensionsToResolve(turn, [s.metricQuery.value] + s.additionalQueries), []);
      match r.0
      case LookupFailed => Raised(Sent(r.1))
      case AmbiguousValue(question) =>
        Updated(s.(executionRoute := ClarifyRoute, modelAction := Clarify, needsClarification := true,
                   clarificationQuestion := Some(question)), Sent(r.1))
      case Narrowed(filters) =>
        Updated(if filters == [] then s.(executionRoute := GovernedMetric) else WithFilters(turn, s, filters), Sent(r.1))
  }

  /** The lookups made before planning a request, and whether none failed. */
  function PlanLookups(turn: Turn, dimensions: seq<string>): (bool, seq<L.Lookup>) {
    if dimensions == [] then (true, [])
    else
      var r := L.Resolve(turn.source, turn.question, Some(dimensions[0]));
      if r.0.None? then (false, r.1)
      else
        var rest := PlanLookups(turn, dimensions[1..]);
        (rest.0, r.1 + rest.1)
  }

  function PlanMetricRequest(cfg: Config, turn: Turn, s: AgentState): (v: Visit)
    ensures OnlyLookups(v.events)
    ensures v.Updated? ==> v.state == s.(metricQuery := turn.planned)
  {
    var r := PlanLookups(turn, if cfg.plannerEntityValues then turn.route.planDimensions else []);
    if !r.0 || turn.planned.None? || turn.planned.value.metric !in s.authorizedMetrics then Raised(Sent(r.1))
    else Updated(s.(metricQuery := turn.planned), Sent(r.1))
  }

  /** Queries are sent one after the other, and the first that fails ends the turn. */
  function QueryAll(turn: Turn, qs: seq<MetricQuery>): (bool, seq<Event>) {
    if qs == [] then (true, [])
    else if turn.measures(qs[0]).None? then (false, [Queried(qs[0])])
    else
      var rest := QueryAll(turn, qs[1..]);
      (rest.0, [Queried(qs[0])] + rest.1)
  }

  /** One slice for each query, with the rows it is answered with. */
  function Slices(turn: Turn, qs: seq<MetricQuery>): (slices: seq<C.Slice>)
    ensures |slices| == |qs|
    ensures forall i :: 0 <= i < |qs| ==>
      slices[i].metricKey == qs[i].metric && slices[i].dimensions == qs[i].dimensions
      && (turn.measures(qs[i]).Some? ==> slices[i].rows == turn.measures(qs[i]).value)
  {
    seq(|qs|, i requires 0 <= i < |qs| =>
      C.Slice(qs[i].metric, qs[i].dimensions,
              if turn.measures(qs[i]).Some? then turn.measures(qs[i]).value else []))
  }

  /** The grain of the first query, and the metrics of all. */
  function PlanOf(qs: seq<MetricQuery>): (plan: C.Plan)
    requires qs != []
    ensures plan.dimensions == qs[0].dimensions && |plan.metricKeys| == |qs|
    ensures forall i :: 0 <= i < |qs| ==> plan.metricKeys[i] == qs[i].metric
  {
    C.Plan(qs[0].dimensions, seq(|qs|, i requires 0 <= i < |qs| => qs[i].metric))
  }

  ghost predicate Composes(turn: Turn, qs: seq<MetricQuery>)
    requires qs != []
  {
    C.Composed(PlanOf(qs), Slices(turn, qs)).Ok?
  }

  ghost function ExecuteMetric(cfg: Config, turn: Turn, s: AgentState): (v: Visit)
    ensures v.Updated? ==> v.state == s
  {
    if !cfg.metricGateway || s.metricQuery.None? then Raised([])
    else
      var all := [s.metricQuery.value] + s.additionalQueries;
      if exists q :: q in all && q.metric !in s.authorizedMetrics then Raised([])
      else
        var sent := QueryAll(turn, all);
        if !sent.0 || (s.additionalQueries != [] && !Composes(turn, all)) then Raised(sent.1)
        else Updated(s, sent.1)
  }

  function GenerateSql(turn: Turn, s: AgentState): (v: Visit)
    ensures v.events == []
    ensures v.Updated? ==> SameRequest(v.state, s) && SameMetrics(v.state, s) && SameBackground(v.state, s)
    ensures v.Updated? ==> SameSql(v.state.(generatedSql := s.generatedSql), s)
  {
    if turn.generation.None? then Raised([])
    else
      var g := turn.generation.value;
      Updated(
        s.(modelAction := g.action, needsClarification := g.action == Clarify,
           generatedSql := if g.action == Execute && g.sql.Some? then g.sql else s.generatedSql,
           clarificationQuestion := if g.clarificationQuestion.Some? then g.clarificationQuestion
                                    else s.clarificationQuestion,
           blockReason := if g.blockReason.Some? then g.blockReason else s.blockReason),
        [])
  }

  function ValidateSql(turn: Turn, s: AgentState): (v: Visit)
    ensures |v.events| <= 1 && (v.Updated? ==> v.events != [])
    ensures s.generatedSql.Some? ==> v.events == [Validated(s.generatedSql.value)]
    ensures s.generatedSql.None? ==> v.events == []
    ensures v.Updated? ==> SameRequest(v.state, s) && SameMetrics(v.state, s)
    ensures v.Updated? ==>
      && v.state.resolvedQuestion == s.resolvedQuestion && v.state.answers == s.answers
      && v.state.validationAttempts == s.validationAttempts + 1
      && v.state.generatedSql == s.generatedSql && v.state.repairAttempted == s.repairAttempted
      && v.state.needsClarification == s.needsClarification && v.state.modelAction == s.modelAction
  {
    if s.generatedSql.None? then Raised([])
    else
      var result := turn.validate(s.generatedSql.value);
      var events := [Validated(s.generatedSql.value)];
      var update := s.(validation := Some(result), validationAttempts := s.validationAttempts + 1);
      if result.isValid && result.validatedSql.Some? then
        var temporal := turn.temporalProblem(result.validatedSql.value);
        if temporal.Some? then
          if s.repairAttempted then Raised(events)
          else Updated(update.(temporalRepairHint := temporal,
                               initialErrorCode := if s.initialErrorCode.None? then Some("missing_time_filter")
                                                   else s.initialErrorCode), events)
        else Updated(update.(validatedSql := result.validatedSql,
                             repairSucceeded := s.repairAttempted || s.repairSucceeded), events)
      else if result.errorCode == Some(FORBIDDEN_SCHEMA) then Raised(events)
      else if result.repairable && !s.repairAttempted then
        Updated(update.(initialErrorCode := if s.initialErrorCode.None? then result.errorCode
                                            else s.initialErrorCode), events)
      else Raised(events)
  }

  function RepairSql(turn: Turn, s: AgentState): (v: Visit)
    ensures v.Updated? ==> v.state == s.(generatedSql := turn.repaired, repairAttempted := true)
  {
    if turn.repaired.None? || s.validation.None? then Raised([])
    else Updated(s.(generatedSql := turn.repaired, repairAttempted := true), [Repaired(turn.repaired.value)])
  }

  function ExecuteSql(turn: Turn, s: AgentState): (v: Visit)
    ensures v.Updated? ==> v.state == s
  {
    if s.validatedSql.None? then Raised([])
    else if !turn.executes(s.validatedSql.value) then Raised([Executed(s.validatedSql.value)])
    else Updated(s, [Executed(s.validatedSql.value)])
  }

  function RecordContext(s: AgentState): AgentState {
    var state :=
      if s.needsClarification then Required
      else if s.modelAction == Block then Blocked
      else NotNeeded;
    s.(context := Some(AnalyticalContext(
         s.question, s.resolvedQuestion, state,
         if s.executionRoute.GovernedMetric? || s.executionRoute.AdhocAnalytics? then Some(s.executionRoute) else None,
         s.metricQuery, s.pendingChoice)),
       answers := s.answers + 1)
  }

  // ---------------------------------------------------------------------------------------------
  // The graph

  datatype Node =
    | PREPARE_REQUEST | AUTHORIZE_REQUEST | RESOLVE_QUESTION_ENTITIES | ROUTE_QUERY
    | PLAN_METRIC_INTENT | RESOLVE_METRIC_ENTITIES | PLAN_METRIC_REQUEST | EXECUTE_METRIC
    | RETRIEVE_SCHEMA | GENERATE_SQL | VALIDATE_SQL | REPAIR_SQL | EXECUTE_SQL
    | CLARIFY | BLOCK | GROUND_ANSWER | FINALIZE_SQL_RESULT | RECORD_CONTEXT

  ghost function VisitNode(cfg: Config, turn: Turn, node: Node, s: AgentState): Visit {
    match node
    case PREPARE_REQUEST => Updated(PrepareRequest(turn, s), [])
    case AUTHORIZE_REQUEST =>
      if turn.authorized.None? then Raised([]) else Updated(s.(authorizedMetrics := turn.authorized.value), [])
    case RESOLVE_QUESTION_ENTITIES => ResolveQuestionEntities(cfg, turn, s)
    case ROUTE_QUERY => RouteQuery(cfg, turn, s)
    case PLAN_METRIC_INTENT => Updated(PlanMetricIntent(turn, s), [])
    case RESOLVE_METRIC_ENTITIES => ResolveMetricEntities(cfg, turn, s)
    case PLAN_METRIC_REQUEST => PlanMetricRequest(cfg, turn, s)
    case EXECUTE_METRIC => ExecuteMetric(cfg, turn, s)
    case RETRIEVE_SCHEMA => Updated(s, [])
    case GENERATE_SQL => GenerateSql(turn, s)
    case VALIDATE_SQL => ValidateSql(turn, s)
    case REPAIR_SQL => RepairSql(turn, s)
    case EXECUTE_SQL => ExecuteSql(turn, s)
    case CLARIFY => Updated(s, [])
    case BLOCK => Updated(s, [])
    case GROUND_ANSWER => if turn.grounded then Updated(s, []) else Raised([])
    case FINALIZE_SQL_RESULT => Updated(s, [])
    case RECORD_CONTEXT => Updated(RecordContext(s), [])
  }

  function RouteAfterValidation(s: AgentState): Node {
    if s.validatedSql.None? || s.validation.None? then REPAIR_SQL
    else if s.validation.value.isValid then EXECUTE_SQL
    else REPAIR_SQL
  }

  function Answering(cfg: Config): Node {
    if cfg.generateAnswer then GROUND_ANSWER else FINALIZE_SQL_RESULT
  }

  /** The edge taken out of a node, given the state the node left. */
  function NextNode(cfg: Config, node: Node, s: AgentState): Node {
    match node
    case PREPARE_REQUEST => AUTHORIZE_REQUEST
    case AUTHORIZE_REQUEST => RESOLVE_QUESTION_ENTITIES
    case RESOLVE_QUESTION_ENTITIES =>
      if s.needsClarification then CLARIFY else if cfg.routerEnabled then ROUTE_QUERY else RETRIEVE_SCHEMA
    case ROUTE_QUERY =>
      (match s.executionRoute
       case ClarifyRoute => CLARIFY
       case BlockRoute => BLOCK
       case GovernedMetric => if cfg.semanticGoverned then PLAN_METRIC_INTENT else PLAN_METRIC_REQUEST
       case AdhocAnalytics => if cfg.semanticGoverned then PLAN_METRIC_INTENT else RETRIEVE_SCHEMA)
    case PLAN_METRIC_INTENT =>
      (match s.executionRoute
       case GovernedMetric => RESOLVE_METRIC_ENTITIES
       case AdhocAnalytics => RETRIEVE_SCHEMA
       case _ => CLARIFY)
    case RESOLVE_METRIC_ENTITIES => if s.executionRoute.GovernedMetric? then EXECUTE_METRIC else CLARIFY
    case PLAN_METRIC_REQUEST => EXECUTE_METRIC
    case EXECUTE_METRIC => Answering(cfg)
    case RETRIEVE_SCHEMA => GENERATE_SQL
    case GENERATE_SQL =>
      (match s.modelAction
       case Clarify => CLARIFY
       case Block => BLOCK
       case Execute => VALIDATE_SQL)
    case VALIDATE_SQL => RouteAfterValidation(s)
    case REPAIR_SQL => VALIDATE_SQL
    case EXECUTE_SQL => Answering(cfg)
    case _ => RECORD_CONTEXT
  }

  /** How far a node is from the end. Validation is further away while a repair is still allowed. */
  function Rank(node: Node, repairAttempted: bool): nat {
    match node
    case PREPARE_REQUEST => 16
    case AUTHORIZE_REQUEST => 15
    case RESOLVE_QUESTION_ENTITIES => 14
    case ROUTE_QUERY => 13
    case PLAN_METRIC_INTENT => 12
    case RESOLVE_METRIC_ENTITIES => 11
    case PLAN_METRIC_REQUEST => 11
    case EXECUTE_METRIC => 10
    case RETRIEVE_SCHEMA => 9
    case GENERATE_SQL => 8
    case VALIDATE_SQL => if repairAttempted then 4 else 7
    case REPAIR_SQL => 5
    case EXECUTE_SQL => 3
    case RECORD_CONTEXT => 0
    case _ => 2
  }

  /** Every edge leads closer to the end, from any state at all. */
  lemma {:induction false} EdgesDescend(cfg: Config, turn: Turn, node: Node, s: AgentState)
    requires node != RECORD_CONTEXT && VisitNode(cfg, turn, node, s).Updated?
    ensures var after := VisitNode(cfg, turn, node, s).state;
      Rank(NextNode(cfg, node, after), after.repairAttempted) < Rank(node, s.repairAttempted)
  {
    hide ResumeClarified, ResolveQuestionEntities, RouteQuery, PlanMetricIntent, ResolveMetricEntities,
         PlanMetricRequest, ExecuteMetric, GenerateSql, ExecuteSql;
  }

  datatype Ending = Completed | Failed

  /** How a turn ended, the state the checkpoint then holds, and what left the graph on the way. */
  datatype Execution = Execution(ending: Ending, state: AgentState, events: seq<Event>)

  ghost function RunFrom(cfg: Config, turn: Turn, node: Node, s: AgentState): Execution
    decreases Rank(node, s.repairAttempted)
  {
    var visit := VisitNode(cfg, turn, node, s);
    if visit.Raised? then Execution(Failed, s, visit.events)
    else if node == RECORD_CONTEXT then Execution(Completed, visit.state, visit.events)
    else
      EdgesDescend(cfg, turn, node, s);
      var rest := RunFrom(cfg, turn, NextNode(cfg, node, visit.state), visit.state);
      rest.(events := visit.events + rest.events)
  }

  ghost function RunTurn(cfg: Config, turn: Turn, leftover: AgentState): Execution {
    RunFrom(cfg, turn, PREPARE_REQUEST, leftover)
  }

  /** One step of a run. */
  lemma {:induction false} Step(cfg: Config, turn: Turn, node: Node, s: AgentState, after: AgentState, events: seq<Event>)
    requires node != RECORD_CONTEXT && VisitNode(cfg, turn, node, s) == Updated(after, events)
    ensures var rest := RunFrom(cfg, turn, NextNode(cfg, node, after), after);
      RunFrom(cfg, turn, node, s) == rest.(events := events + rest.events)
  {
    EdgesDescend(cfg, turn, node, s);
    hide VisitNode, NextNode;
  }

  /** A step that lets nothing out. */
  lemma {:induction false} SilentStep(cfg: Config, turn: Turn, node: Node, s: AgentState, after: AgentState)
    requires node != RECORD_CONTEXT && VisitNode(cfg, turn, node, s) == Updated(after, [])
    ensures RunFrom(cfg, turn, node, s) == RunFrom(cfg, turn, NextNode(cfg, node, after), after)
  {
    Step(cfg, turn, node, s, after, []);
    hide VisitNode, NextNode, RunFrom;
    var rest := RunFrom(cfg, turn, NextNode(cfg, node, after), after);
    assert [] + rest.events == rest.events;
  }

  // ---------------------------------------------------------------------------------------------
  // Counting what leaves the graph

  function Count(events: seq<Event>, p: Event -> bool): nat {
    if events == [] then 0 else (if p(events[0]) then 1 else 0) + Count(events[1..], p)
  }

  lemma {:induction false} CountConcat(a: seq<Event>, b: seq<Event>, p: Event -> bool)
    ensures Count(a + b, p) == Count(a, p) + Count(b, p)
  {
    if a == [] {
      assert a + b == b;
    } else {
      assert (a + b)[1..] == a[1..] + b;
      CountConcat(a[1..], b, p);
    }
  }

  const IsValidated: Event -> bool := (e: Event) => e.Validated?
  const IsRepaired: Event -> bool := (e: Event) => e.Repaired?
  const IsExecuted: Event -> bool := (e: Event) => e.Executed?

  lemma {:induction false} CountOne(e: Event, p: Event -> bool)
    ensures Count([e], p) == if p(e) then 1 else 0
    ensures Count([], p) == 0
  {
    assert [e][1..] == [];
  }

  lemma {:induction false} QueriesCountNothing(turn: Turn, qs: seq<MetricQuery>)
    ensures forall e :: e in QueryAll(turn, qs).1 ==> e.Queried?
    ensures Count(QueryAll(turn, qs).1, IsValidated) == 0
    ensures Count(QueryAll(turn, qs).1, IsRepaired) == 0
    ensures Count(QueryAll(turn, qs).1, IsExecuted) == 0
  {
    if qs != [] {
      QueriesCountNothing(turn, qs[1..]);
      var events := QueryAll(turn, qs).1;
      CountOne(Queried(qs[0]), IsValidated);
      CountOne(Queried(qs[0]), IsRepaired);
      CountOne(Queried(qs[0]), IsExecuted);
      if turn.measures(qs[0]).Some? {
        assert events[1..] == QueryAll(turn, qs[1..]).1;
      }
    }
  }

  /** What one visit of a node can send out. */
  function Sends(node: Node): (nat, nat, nat) {
    match node
    case VALIDATE_SQL => (1, 0, 0)
    case REPAIR_SQL => (0, 1, 0)
    case EXECUTE_SQL => (0, 0, 1)
    case _ => (0, 0, 0)
  }

  predicate LooksUpAt(node: Node) {
    node == RESOLVE_QUESTION_ENTITIES || node == RESOLVE_METRIC_ENTITIES || node == PLAN_METRIC_REQUEST
  }

  /** The three nodes that resolve entity values send lookups and nothing else. */
  lemma {:induction false} VisitLooksUp(cfg: Config, turn: Turn, node: Node, s: AgentState)
    requires LooksUpAt(node)
    ensures OnlyLookups(VisitNode(cfg, turn, node, s).events)
  {
    hide ResolveQuestionEntities, ResolveMetricEntities, PlanMetricRequest, OnlyLookups;
  }

  lemma {:induction false} LookupsCountNothing(events: seq<Event>)
    requires OnlyLookups(events)
    ensures Count(events, IsValidated) == 0 && Count(events, IsRepaired) == 0 && Count(events, IsExecuted) == 0
    ensures QueriedMetrics(events) == []
  {
    if events != [] {
      LookupsCountNothing(events[1..]);
      assert events[0].LookedUp?;
    }
  }

  lemma {:induction false} VisitSendsOne(cfg: Config, turn: Turn, node: Node, s: AgentState)
    requires node != EXECUTE_METRIC && !LooksUpAt(node)
    ensures var events := VisitNode(cfg, turn, node, s).events;
      && |events| <= 1
      && (events != [] ==>
            && (events[0].Validated? <==> node == VALIDATE_SQL)
            && (events[0].Repaired? <==> node == REPAIR_SQL)
            && (events[0].Executed? <==> node == EXECUTE_SQL)
            && !events[0].LookedUp?)
    ensures node == VALIDATE_SQL && VisitNode(cfg, turn, node, s).Updated? ==>
      VisitNode(cfg, turn, node, s).events != []
  {
    hide PrepareRequest, ResolveQuestionEntities, RouteQuery, PlanMetricIntent, ResolveMetricEntities, PlanMetricRequest, ExecuteMetric,
         GenerateSql, ValidateSql;
  }

  lemma {:induction false} MetricEvents(cfg: Config, turn: Turn, s: AgentState)
    ensures forall e :: e in VisitNode(cfg, turn, EXECUTE_METRIC, s).events ==> e.Queried?
  {
    if s.metricQuery.Some? {
      QueriesCountNothing(turn, [s.metricQuery.value] + s.additionalQueries);
    }
    hide QueryAll, Count;
  }

  lemma {:induction false} QueriesOnlyCountNothing(events: seq<Event>)
    requires forall e :: e in events ==> e.Queried?
    ensures Count(events, IsValidated) == 0 && Count(events, IsRepaired) == 0 && Count(events, IsExecuted) == 0
  {
    if events != [] {
      QueriesOnlyCountNothing(events[1..]);
      assert events[0].Queried?;
    }
  }

  lemma {:induction false} VisitSends(cfg: Config, turn: Turn, node: Node, s: AgentState)
    ensures var events := VisitNode(cfg, turn, node, s).events;
      && Count(events, IsValidated) <= Sends(node).0
      && Count(events, IsRepaired) <= Sends(node).1
      && Count(events, IsExecuted) <= Sends(node).2
    ensures node == VALIDATE_SQL && VisitNode(cfg, turn, node, s).Updated? ==>
      Count(VisitNode(cfg, turn, node, s).events, IsValidated) == 1
  {
    hide VisitNode, Count;
    var events := VisitNode(cfg, turn, node, s).events;
    if node == EXECUTE_METRIC {
      MetricEvents(cfg, turn, s);
      QueriesOnlyCountNothing(events);
    } else if LooksUpAt(node) {
      VisitLooksUp(cfg, turn, node, s);
      LookupsCountNothing(events);
    } else {
      VisitSendsOne(cfg, turn, node, s);
      if events != [] {
        assert events == [events[0]];
      }
      var e := if events == [] then Validated("") else events[0];
      CountOne(e, IsValidated);
      CountOne(e, IsRepaired);
      CountOne(e, IsExecuted);
    }
  }

  /** Validations, repairs and executions still possible from a node on. */
  function Budget(node: Node, repairAttempted: bool): (nat, nat, nat) {
    match node
    case VALIDATE_SQL => if repairAttempted then (1, 0, 1) else (2, 1, 1)
    case REPAIR_SQL => (1, 1, 1)
    case EXECUTE_SQL => (0, 0, 1)
    case CLARIFY => (0, 0, 0)
    case BLOCK => (0, 0, 0)
    case GROUND_ANSWER => (0, 0, 0)
    case FINALIZE_SQL_RESULT => (0, 0, 0)
    case RECORD_CONTEXT => (0, 0, 0)
    case _ => (2, 1, 1)
  }

  lemma {:induction false} BudgetStep(cfg: Config, turn: Turn, node: Node, s: AgentState)
    requires node != RECORD_CONTEXT && VisitNode(cfg, turn, node, s).Updated?
    ensures var after := VisitNode(cfg, turn, node, s).state;
      var left := Budget(NextNode(cfg, node, after), after.repairAttempted);
      var now := Budget(node, s.repairAttempted);
      left.0 + Sends(node).0 <= now.0 && left.1 + Sends(node).1 <= now.1 && left.2 + Sends(node).2 <= now.2
  {
    hide ResumeClarified, ResolveQuestionEntities, RouteQuery, PlanMetricIntent, ResolveMetricEntities,
         PlanMetricRequest, ExecuteMetric, GenerateSql, ExecuteSql;
  }

  lemma {:induction false} RunWithinBudget(cfg: Config, turn: Turn, node: Node, s: AgentState)
    ensures var events := RunFrom(cfg, turn, node, s).events;
      var budget := Budget(node, s.repairAttempted);
      && Count(events, IsValidated) <= budget.0
      && Count(events, IsRepaired) <= budget.1
      && Count(events, IsExecuted) <= budget.2
    decreases Rank(node, s.repairAttempted)
  {
    var visit := VisitNode(cfg, turn, node, s);
    VisitSends(cfg, turn, node, s);
    if visit.Updated? && node != RECORD_CONTEXT {
      EdgesDescend(cfg, turn, node, s);
      BudgetStep(cfg, turn, node, s);
      hide VisitNode, NextNode, Budget;
      var rest := RunFrom(cfg, turn, NextNode(cfg, node, visit.state), visit.state);
      RunWithinBudget(cfg, turn, NextNode(cfg, node, visit.state), visit.state);
      CountConcat(visit.events, rest.events, IsValidated);
      CountConcat(visit.events, rest.events, IsRepaired);
      CountConcat(visit.events, rest.events, IsExecuted);
    } else {
      hide VisitNode;
    }
  }

  /** From any leftover state whatever: at most two validations, one repair and one execution. */
  lemma {:induction false} TurnIsBounded(cfg: Config, turn: Turn, leftover: AgentState)
    ensures var events := RunTurn(cfg, turn, leftover).events;
      && Count(events, IsValidated) <= 2
      && Count(events, IsRepaired) <= 1
      && Count(events, IsExecuted) <= 1
  {
    RunWithinBudget(cfg, turn, PREPARE_REQUEST, leftover);
  }

  /** The stored counter is the number of validations of this turn. */
  lemma {:induction false} RunCountsAttempts(cfg: Config, turn: Turn, node: Node, s: AgentState)
    requires node != PREPARE_REQUEST
    ensures var x := RunFrom(cfg, turn, node, s);
      x.ending == Completed ==> x.state.validationAttempts == s.validationAttempts + Count(x.events, IsValidated)
    decreases Rank(node, s.repairAttempted)
  {
    var visit := VisitNode(cfg, turn, node, s);
    VisitSends(cfg, turn, node, s);
    AttemptsStep(cfg, turn, node, s);
    if visit.Updated? && node != RECORD_CONTEXT {
      EdgesDescend(cfg, turn, node, s);
      hide VisitNode, NextNode;
      var rest := RunFrom(cfg, turn, NextNode(cfg, node, visit.state), visit.state);
      RunCountsAttempts(cfg, turn, NextNode(cfg, node, visit.state), visit.state);
      CountConcat(visit.events, rest.events, IsValidated);
    } else {
      hide VisitNode;
    }
  }

  lemma {:induction false} AttemptsStep(cfg: Config, turn: Turn, node: Node, s: AgentState)
    requires node != PREPARE_REQUEST
    ensures VisitNode(cfg, turn, node, s).Updated? ==>
      VisitNode(cfg, turn, node, s).state.validationAttempts
      == s.validationAttempts + if node == VALIDATE_SQL then 1 else 0
    ensures VisitNode(cfg, turn, node, s).Updated? && node != RECORD_CONTEXT ==>
      NextNode(cfg, node, VisitNode(cfg, turn, node, s).state) != PREPARE_REQUEST
  {
    hide PrepareRequest, ResolveQuestionEntities, RouteQuery, PlanMetricIntent, ResolveMetricEntities, PlanMetricRequest, ExecuteMetric,
         GenerateSql, ValidateSql, RepairSql, ExecuteSql;
  }

  lemma {:induction false} CompletedTurnCountsAttempts(cfg: Config, turn: Turn, leftover: AgentState)
    requires RunTurn(cfg, turn, leftover).ending == Completed
    ensures var x := RunTurn(cfg, turn, leftover);
      x.state.validationAttempts == Count(x.events, IsValidated)
  {
    var prepared := PrepareRequest(turn, leftover);
    RunCountsAttempts(cfg, turn, AUTHORIZE_REQUEST, prepared);
    hide PrepareRequest;
    assert [] + RunFrom(cfg, turn, AUTHORIZE_REQUEST, prepared).events
        == RunFrom(cfg, turn, AUTHORIZE_REQUEST, prepared).events;
  }

  // ---------------------------------------------------------------------------------------------
  // What reaches the database

  /** The SQL this turn's model calls produced. */
  predicate FromThisTurn(turn: Turn, candidate: string) {
    || (turn.generation.Some? && turn.generation.value.sql == Some(candidate))
    || turn.repaired == Some(candidate)
  }

  /** The validator turned the candidate into this statement, and the statement kept the period asked for. */
  predicate Approves(turn: Turn, candidate: string, sql: string) {
    && turn.validate(candidate).isValid
    && turn.validate(candidate).validatedSql == Some(sql)
    && turn.temporalProblem(sql).None?
  }

  /** Every statement sent was approved by the validation immediately before it, of this turn's SQL. */
  ghost predicate Checked(turn: Turn, events: seq<Event>) {
    && (forall i :: 0 <= i < |events| && events[i].Validated? ==> FromThisTurn(turn, events[i].candidate))
    && (forall i :: 0 <= i < |events| && events[i].Executed? ==>
          i > 0 && events[i - 1].Validated? && Approves(turn, events[i - 1].candidate, events[i].sql))
  }

  /** What the state may hold on the way to the database. */
  ghost predicate SqlIsOurs(turn: Turn, node: Node, s: AgentState) {
    match node
    case PREPARE_REQUEST => true
    case VALIDATE_SQL =>
      s.validatedSql.None? && (s.generatedSql.Some? ==> FromThisTurn(turn, s.generatedSql.value))
    case REPAIR_SQL => s.validatedSql.None? && !s.repairAttempted
    case EXECUTE_SQL =>
      s.validatedSql.Some? && s.generatedSql.Some? && Approves(turn, s.generatedSql.value, s.validatedSql.value)
    case CLARIFY => true
    case BLOCK => true
    case GROUND_ANSWER => true
    case FINALIZE_SQL_RESULT => true
    case RECORD_CONTEXT => true
    case _ => s.validatedSql.None? && s.generatedSql.None? && !s.repairAttempted
  }

  lemma {:induction false} SqlStep(cfg: Config, turn: Turn, node: Node, s: AgentState)
    requires SqlIsOurs(turn, node, s) && node != RECORD_CONTEXT && VisitNode(cfg, turn, node, s).Updated?
    ensures var after := VisitNode(cfg, turn, node, s).state;
      SqlIsOurs(turn, NextNode(cfg, node, after), after)
    ensures var after := VisitNode(cfg, turn, node, s).state;
      NextNode(cfg, node, after) == EXECUTE_SQL ==>
        node == VALIDATE_SQL && after.generatedSql == s.generatedSql
  {
    hide ResumeClarified, ResolveQuestionEntities, RouteQuery, PlanMetricIntent, ResolveMetricEntities,
         PlanMetricRequest, ExecuteMetric, RepairSql, ExecuteSql;
  }

  lemma {:induction false} QueriesAreChecked(turn: Turn, events: seq<Event>)
    requires forall e :: e in events ==> e.Queried?
    ensures Checked(turn, events)
  {
    forall i | 0 <= i < |events| ensures events[i].Queried? {
      assert events[i] in events;
    }
  }

  lemma {:induction false} LookupsAreChecked(turn: Turn, events: seq<Event>)
    requires OnlyLookups(events)
    ensures Checked(turn, events)
  {
    hide Approves, FromThisTurn;
    forall i | 0 <= i < |events| ensures events[i].LookedUp? {
      assert events[i] in events;
    }
  }

  lemma {:induction false} ValidationIsChecked(cfg: Config, turn: Turn, s: AgentState)
    requires SqlIsOurs(turn, VALIDATE_SQL, s)
    ensures Checked(turn, VisitNode(cfg, turn, VALIDATE_SQL, s).events)
    ensures s.generatedSql.Some? ==>
      VisitNode(cfg, turn, VALIDATE_SQL, s).events == [Validated(s.generatedSql.value)]
  {
    hide Approves, FromThisTurn, ValidateSql;
  }

  lemma {:induction false} VisitChecked(cfg: Config, turn: Turn, node: Node, s: AgentState)
    requires SqlIsOurs(turn, node, s) && node != EXECUTE_SQL
    ensures Checked(turn, VisitNode(cfg, turn, node, s).events)
    ensures node == VALIDATE_SQL && s.generatedSql.Some? ==>
      VisitNode(cfg, turn, node, s).events == [Validated(s.generatedSql.value)]
  {
    hide VisitNode, Approves, FromThisTurn, SqlIsOurs, OnlyLookups;
    var events := VisitNode(cfg, turn, node, s).events;
    if node == EXECUTE_METRIC {
      MetricEvents(cfg, turn, s);
      QueriesAreChecked(turn, events);
    } else if node == VALIDATE_SQL {
      ValidationIsChecked(cfg, turn, s);
    } else if LooksUpAt(node) {
      VisitLooksUp(cfg, turn, node, s);
      LookupsAreChecked(turn, events);
    } else {
      VisitSendsOne(cfg, turn, node, s);
    }
  }

  lemma {:induction false} AfterExecution(cfg: Config, turn: Turn, s: AgentState)
    requires s.validatedSql.Some?
    ensures RunFrom(cfg, turn, EXECUTE_SQL, s).events == [Executed(s.validatedSql.value)]
  {
    if turn.executes(s.validatedSql.value) {
      NothingAfterAnswering(cfg, turn, Answering(cfg), s);
    }
  }

  lemma {:induction false} NothingAfterAnswering(cfg: Config, turn: Turn, node: Node, s: AgentState)
    requires Rank(node, s.repairAttempted) <= 2
    ensures RunFrom(cfg, turn, node, s).events == []
    decreases Rank(node, s.repairAttempted)
  {
    if node != RECORD_CONTEXT {
      NothingAfterAnswering(cfg, turn, RECORD_CONTEXT, s);
    }
  }

  lemma {:induction false} JoinChecked(turn: Turn, a: seq<Event>, b: seq<Event>)
    requires Checked(turn, a) && Checked(turn, b)
    ensures Checked(turn, a + b)
  {
    hide Approves, FromThisTurn;
    var events := a + b;
    forall i | 0 <= i < |events| && events[i].Executed?
      ensures i > 0 && events[i - 1].Validated? && Approves(turn, events[i - 1].candidate, events[i].sql)
    {
      if i < |a| {
        assert events[i] == a[i] && events[i - 1] == a[i - 1];
      } else {
        assert events[i] == b[i - |a|] && events[i - 1] == b[i - |a| - 1];
      }
    }
  }

  lemma {:induction false} RunIsChecked(cfg: Config, turn: Turn, node: Node, s: AgentState)
    requires SqlIsOurs(turn, node, s) && node != EXECUTE_SQL
    ensures Checked(turn, RunFrom(cfg, turn, node, s).events)
    decreases Rank(node, s.repairAttempted)
  {
    var visit := VisitNode(cfg, turn, node, s);
    VisitChecked(cfg, turn, node, s);
    if visit.Updated? && node != RECORD_CONTEXT {
      EdgesDescend(cfg, turn, node, s);
      SqlStep(cfg, turn, node, s);
      var next := NextNode(cfg, node, visit.state);
      if next == EXECUTE_SQL {
        AfterExecution(cfg, turn, visit.state);
        hide VisitNode, NextNode, RunFrom;
        assert Checked(turn, [Validated(s.generatedSql.value), Executed(visit.state.validatedSql.value)]);
      } else {
        hide VisitNode, NextNode, Checked, SqlIsOurs;
        RunIsChecked(cfg, turn, next, visit.state);
        JoinChecked(turn, visit.events, RunFrom(cfg, turn, next, visit.state).events);
      }
    }
  }

  /**
   * Whatever an earlier turn left in the state: a statement reaches the database only as the
   * validated form of SQL generated or repaired in this same turn, accepted by both checks.
   */
  lemma {:induction false} OnlyApprovedSqlIsExecuted(cfg: Config, turn: Turn, leftover: AgentState)
    ensures Checked(turn, RunTurn(cfg, turn, leftover).events)
  {
    RunIsChecked(cfg, turn, PREPARE_REQUEST, leftover);
  }

  // ---------------------------------------------------------------------------------------------
  // What reaches the metric provider

  function QueriedMetrics(events: seq<Event>): seq<string> {
    if events == [] then []
    else (if events[0].Queried? then [events[0].query.metric] else []) + QueriedMetrics(events[1..])
  }

  lemma {:induction false} QueriedConcat(a: seq<Event>, b: seq<Event>)
    ensures QueriedMetrics(a + b) == QueriedMetrics(a) + QueriedMetrics(b)
  {
    if a == [] {
      assert a + b == b;
    } else {
      assert (a + b)[1..] == a[1..] + b;
      QueriedConcat(a[1..], b);
    }
  }

  lemma {:induction false} QueriedPrefix(turn: Turn, qs: seq<MetricQuery>)
    ensures QueriedMetrics(QueryAll(turn, qs).1) <= Metrics(qs)
    ensures QueryAll(turn, qs).0 ==> QueriedMetrics(QueryAll(turn, qs).1) == Metrics(qs)
  {
    if qs != [] {
      QueriedPrefix(turn, qs[1..]);
      if turn.measures(qs[0]).Some? {
        assert QueryAll(turn, qs).1[1..] == QueryAll(turn, qs[1..]).1;
      } else {
        assert QueryAll(turn, qs).1[1..] == [];
      }
    }
  }

  lemma {:induction false} MetricsMember(qs: seq<MetricQuery>, m: string)
    ensures m in Metrics(qs) <==> exists q :: q in qs && q.metric == m
  {
    if qs != [] {
      MetricsMember(qs[1..], m);
      assert qs == [qs[0]] + qs[1..];
    }
  }

  /** The metrics a governed turn sends out: its plan, and without semantic planning what was left over. */
  function Wanted(cfg: Config, turn: Turn, leftover: AgentState): seq<string> {
    if cfg.semanticGoverned then
      if turn.intent.MetricPlan? then Metrics([turn.intent.primary] + turn.intent.extra) else []
    else if turn.planned.Some? then [turn.planned.value.metric] + Metrics(leftover.additionalQueries)
    else []
  }

  /** The metrics this turn itself planned. */
  function PlannedNow(cfg: Config, turn: Turn): seq<string> {
    if cfg.semanticGoverned then
      if turn.intent.MetricPlan? then Metrics([turn.intent.primary] + turn.intent.extra) else []
    else if turn.planned.Some? then [turn.planned.value.metric]
    else []
  }

  ghost predicate MetricsAreOurs(cfg: Config, turn: Turn, leftover: AgentState, node: Node, s: AgentState) {
    && (node != PREPARE_REQUEST && node != AUTHORIZE_REQUEST ==> turn.authorized == Some(s.authorizedMetrics))
    && (!cfg.semanticGoverned ==> s.additionalQueries == leftover.additionalQueries)
    && (node == RESOLVE_METRIC_ENTITIES || node == PLAN_METRIC_INTENT ==> cfg.semanticGoverned)
    && (node == RESOLVE_METRIC_ENTITIES || node == EXECUTE_METRIC ==>
          s.metricQuery.Some? && Metrics([s.metricQuery.value] + s.additionalQueries) == Wanted(cfg, turn, leftover))
    && (node == PLAN_METRIC_REQUEST ==> !cfg.semanticGoverned)
  }

  lemma {:induction false} MetricsCons(q: MetricQuery, qs: seq<MetricQuery>)
    ensures Metrics([q] + qs) == [q.metric] + Metrics(qs)
  {
    assert ([q] + qs)[1..] == qs;
  }

  lemma {:induction false} MetricsKept(cfg: Config, turn: Turn, node: Node, s: AgentState)
    requires VisitNode(cfg, turn, node, s).Updated?
    ensures var after := VisitNode(cfg, turn, node, s).state;
      && (node != AUTHORIZE_REQUEST ==> after.authorizedMetrics == s.authorizedMetrics)
      && (node != PLAN_METRIC_INTENT && node != RESOLVE_METRIC_ENTITIES && node != PLAN_METRIC_REQUEST ==>
            after.metricQuery == s.metricQuery)
      && (node != PLAN_METRIC_INTENT && node != RESOLVE_METRIC_ENTITIES ==>
            after.additionalQueries == s.additionalQueries)
  {
    hide PrepareRequest, ResolveQuestionEntities, RouteQuery, PlanMetricIntent, ResolveMetricEntities, PlanMetricRequest, ExecuteMetric,
         GenerateSql, ValidateSql, RepairSql, ExecuteSql;
  }

  lemma {:induction false} MetricEdges(cfg: Config, node: Node, s: AgentState)
    ensures NextNode(cfg, node, s) == RESOLVE_METRIC_ENTITIES ==>
      node == PLAN_METRIC_INTENT && s.executionRoute == GovernedMetric
    ensures NextNode(cfg, node, s) == EXECUTE_METRIC ==> node == RESOLVE_METRIC_ENTITIES || node == PLAN_METRIC_REQUEST
    ensures NextNode(cfg, node, s) == PLAN_METRIC_INTENT ==> node == ROUTE_QUERY && cfg.semanticGoverned
    ensures NextNode(cfg, node, s) == PLAN_METRIC_REQUEST ==> node == ROUTE_QUERY && !cfg.semanticGoverned
    ensures NextNode(cfg, node, s) == AUTHORIZE_REQUEST ==> node == PREPARE_REQUEST
    ensures NextNode(cfg, node, s) != PREPARE_REQUEST
  {
  }

  ghost predicate IsFiltered(turn: Turn, s: AgentState, after: AgentState)
    requires s.metricQuery.Some?
  {
    exists filters :: after == WithFilters(turn, s, filters)
  }

  lemma {:induction false} NarrowingFilters(cfg: Config, turn: Turn, s: AgentState)
    requires s.metricQuery.Some? && ResolveMetricEntities(cfg, turn, s).Updated?
    ensures var after := ResolveMetricEntities(cfg, turn, s).state;
      || (after.metricQuery == s.metricQuery && after.additionalQueries == s.additionalQueries)
      || IsFiltered(turn, s, after)
  {
    hide WithFilters, Narrow, DimensionsToResolve, Sent;
    var r := Narrow(turn, DimensionsToResolve(turn, [s.metricQuery.value] + s.additionalQueries), []);
    if cfg.entityValues && r.0.Narrowed? && r.0.filters != [] {
      assert ResolveMetricEntities(cfg, turn, s).state == WithFilters(turn, s, r.0.filters);
    }
  }

  /** Narrowing replaces filters only. */
  lemma {:induction false} NarrowingKeepsQueries(cfg: Config, turn: Turn, s: AgentState)
    requires s.metricQuery.Some? && ResolveMetricEntities(cfg, turn, s).Updated?
    ensures var after := ResolveMetricEntities(cfg, turn, s).state;
      && after.metricQuery.Some? && after.metricQuery.value.metric == s.metricQuery.value.metric
      && Metrics(after.additionalQueries) == Metrics(s.additionalQueries)
  {
    NarrowingFilters(cfg, turn, s);
    hide Metrics, WithFilters, ResolveMetricEntities;
  }

  lemma {:induction false} FilteringKeepsMetrics(cfg: Config, turn: Turn, s: AgentState)
    requires s.metricQuery.Some? && ResolveMetricEntities(cfg, turn, s).Updated?
    ensures var after := ResolveMetricEntities(cfg, turn, s).state;
      && after.metricQuery.Some?
      && Metrics([after.metricQuery.value] + after.additionalQueries)
         == Metrics([s.metricQuery.value] + s.additionalQueries)
  {
    hide Metrics, ResolveMetricEntities;
    NarrowingKeepsQueries(cfg, turn, s);
    var after := ResolveMetricEntities(cfg, turn, s).state;
    MetricsCons(after.metricQuery.value, after.additionalQueries);
    MetricsCons(s.metricQuery.value, s.additionalQueries);
  }

  lemma {:induction false} PlanningStep(cfg: Config, turn: Turn, leftover: AgentState, node: Node, s: AgentState)
    requires MetricsAreOurs(cfg, turn, leftover, node, s) && VisitNode(cfg, turn, node, s).Updated?
    requires node == PLAN_METRIC_INTENT || node == RESOLVE_METRIC_ENTITIES || node == PLAN_METRIC_REQUEST
    ensures var after := VisitNode(cfg, turn, node, s).state;
      && (!cfg.semanticGoverned ==> after.additionalQueries == leftover.additionalQueries)
      && (node != PLAN_METRIC_INTENT || after.executionRoute == GovernedMetric ==>
            after.metricQuery.Some?
            && Metrics([after.metricQuery.value] + after.additionalQueries) == Wanted(cfg, turn, leftover))
  {
    var after := VisitNode(cfg, turn, node, s).state;
    match node
    case RESOLVE_METRIC_ENTITIES =>
      FilteringKeepsMetrics(cfg, turn, s);
      hide Metrics, ResolveMetricEntities;
    case PLAN_METRIC_INTENT =>
      hide Metrics;
      PlannedIntent(turn, s);
      hide PlanMetricIntent;
    case PLAN_METRIC_REQUEST =>
      hide Metrics;
      PlannedRequest(cfg, turn, s);
      MetricsCons(turn.planned.value, s.additionalQueries);
      hide PlanMetricRequest;
  }

  lemma {:induction false} PlannedIntent(turn: Turn, s: AgentState)
    ensures var after := PlanMetricIntent(turn, s);
      after.executionRoute == GovernedMetric ==>
        turn.intent.MetricPlan? && after.metricQuery == Some(turn.intent.primary)
        && after.additionalQueries == turn.intent.extra
  {
  }

  lemma {:induction false} PlannedRequest(cfg: Config, turn: Turn, s: AgentState)
    requires PlanMetricRequest(cfg, turn, s).Updated?
    ensures turn.planned.Some?
  {
  }

  lemma {:induction false} MetricsStep(cfg: Config, turn: Turn, leftover: AgentState, node: Node, s: AgentState)
    requires MetricsAreOurs(cfg, turn, leftover, node, s)
    requires node != RECORD_CONTEXT && VisitNode(cfg, turn, node, s).Updated?
    ensures var after := VisitNode(cfg, turn, node, s).state;
      MetricsAreOurs(cfg, turn, leftover, NextNode(cfg, node, after), after)
  {
    var after := VisitNode(cfg, turn, node, s).state;
    MetricsKept(cfg, turn, node, s);
    MetricEdges(cfg, node, after);
    if node == PLAN_METRIC_INTENT || node == RESOLVE_METRIC_ENTITIES || node == PLAN_METRIC_REQUEST {
      PlanningStep(cfg, turn, leftover, node, s);
    }
    assert node == AUTHORIZE_REQUEST ==> turn.authorized == Some(after.authorizedMetrics);
    hide VisitNode, NextNode, Metrics, Wanted;
  }

  /** Only the metric node sends queries; all of them are authorized before the first is sent. */
  lemma {:induction false} VisitQueries(cfg: Config, turn: Turn, leftover: AgentState, node: Node, s: AgentState)
    requires MetricsAreOurs(cfg, turn, leftover, node, s)
    ensures var visit := VisitNode(cfg, turn, node, s);
      && (node != EXECUTE_METRIC ==> QueriedMetrics(visit.events) == [])
      && (node == EXECUTE_METRIC ==> QueriedMetrics(visit.events) <= Wanted(cfg, turn, leftover))
      && (node == EXECUTE_METRIC && visit.Updated? ==> QueriedMetrics(visit.events) == Wanted(cfg, turn, leftover))
      && (forall m :: m in QueriedMetrics(visit.events) ==> turn.authorized.Some? && m in turn.authorized.value)
  {
    var visit := VisitNode(cfg, turn, node, s);
    if node == EXECUTE_METRIC {
      var all := [s.metricQuery.value] + s.additionalQueries;
      QueriedPrefix(turn, all);
      forall m | m in QueriedMetrics(visit.events) ensures turn.authorized.Some? && m in turn.authorized.value {
        MetricsMember(all, m);
      }
    } else if LooksUpAt(node) {
      VisitLooksUp(cfg, turn, node, s);
      LookupsCountNothing(visit.events);
      hide *;
    } else if visit.events != [] {
      VisitSendsOne(cfg, turn, node, s);
      assert visit.events[1..] == [];
      assert !visit.events[0].Queried? by { NoQueryHere(cfg, turn, node, s); }
      hide VisitNode, MetricsAreOurs, Wanted;
    }
  }

  lemma {:induction false} NoQueryHere(cfg: Config, turn: Turn, node: Node, s: AgentState)
    requires node != EXECUTE_METRIC && !LooksUpAt(node)
    ensures forall e :: e in VisitNode(cfg, turn, node, s).events ==> !e.Queried?
  {
    hide PrepareRequest, ResolveQuestionEntities, RouteQuery, PlanMetricIntent, ResolveMetricEntities, PlanMetricRequest, ExecuteMetric,
         GenerateSql, ValidateSql;
  }

  lemma {:induction false} MetricsThenAnswer(cfg: Config, s: AgentState)
    ensures Rank(NextNode(cfg, EXECUTE_METRIC, s), s.repairAttempted) <= 2
  {
  }

  lemma {:induction false} RunQueries(cfg: Config, turn: Turn, leftover: AgentState, node: Node, s: AgentState)
    requires MetricsAreOurs(cfg, turn, leftover, node, s)
    ensures var x := RunFrom(cfg, turn, node, s);
      && QueriedMetrics(x.events) <= Wanted(cfg, turn, leftover)
      && (x.ending == Completed && QueriedMetrics(x.events) != [] ==>
            QueriedMetrics(x.events) == Wanted(cfg, turn, leftover))
      && (forall m :: m in QueriedMetrics(x.events) ==> turn.authorized.Some? && m in turn.authorized.value)
    decreases Rank(node, s.repairAttempted)
  {
    hide VisitNode, NextNode, MetricsAreOurs, Wanted;
    var visit := VisitNode(cfg, turn, node, s);
    VisitQueries(cfg, turn, leftover, node, s);
    if visit.Updated? && node != RECORD_CONTEXT {
      EdgesDescend(cfg, turn, node, s);
      MetricsStep(cfg, turn, leftover, node, s);
      var next := NextNode(cfg, node, visit.state);
      if node == EXECUTE_METRIC {
        MetricsThenAnswer(cfg, visit.state);
        NothingAfterAnswering(cfg, turn, next, visit.state);
      } else {
        RunQueries(cfg, turn, leftover, next, visit.state);
      }
      QueriedConcat(visit.events, RunFrom(cfg, turn, next, visit.state).events);
    }
  }

  /** From any leftover state: no metric is queried that this turn's authorization does not allow. */
  lemma {:induction false} OnlyAuthorizedMetricsAreQueried(cfg: Config, turn: Turn, leftover: AgentState)
    ensures forall m :: m in QueriedMetrics(RunTurn(cfg, turn, leftover).events) ==>
      turn.authorized.Some? && m in turn.authorized.value
  {
    RunQueries(cfg, turn, leftover, PREPARE_REQUEST, leftover);
  }

  /**
   * A completed governed turn queries exactly the metrics it planned if and only if it was planned
   * semantically or no additional queries were left over: preparing a request does not clear them.
   */
  lemma {:induction false} LeftoverQueriesDecide(cfg: Config, turn: Turn, leftover: AgentState)
    requires RunTurn(cfg, turn, leftover).ending == Completed
    requires QueriedMetrics(RunTurn(cfg, turn, leftover).events) != []
    ensures QueriedMetrics(RunTurn(cfg, turn, leftover).events) == PlannedNow(cfg, turn)
       <==> cfg.semanticGoverned || leftover.additionalQueries == []
  {
    RunQueries(cfg, turn, leftover, PREPARE_REQUEST, leftover);
    hide RunTurn;
    if !cfg.semanticGoverned && turn.planned.Some? {
      assert |Metrics(leftover.additionalQueries)| == 0 <==> leftover.additionalQueries == [];
    }
  }

  // ---------------------------------------------------------------------------------------------
  // A turn that asks or refuses does nothing else

  ghost predicate Working(node: Node, s: AgentState) {
    node == PREPARE_REQUEST || node == CLARIFY || node == BLOCK || node == RECORD_CONTEXT
    || (!s.needsClarification && s.modelAction == Execute)
  }

  /** The nodes that can decide to ask or to refuse. */
  predicate Decides(node: Node) {
    || node == PREPARE_REQUEST || node == RESOLVE_QUESTION_ENTITIES || node == ROUTE_QUERY
    || node == PLAN_METRIC_INTENT || node == RESOLVE_METRIC_ENTITIES || node == GENERATE_SQL
  }

  lemma {:induction false} DecisionKept(cfg: Config, turn: Turn, node: Node, s: AgentState)
    requires !Decides(node) && node != RECORD_CONTEXT && VisitNode(cfg, turn, node, s).Updated?
    ensures var after := VisitNode(cfg, turn, node, s).state;
      && after.needsClarification == s.needsClarification && after.modelAction == s.modelAction
      && (node == CLARIFY || node == BLOCK ==> NextNode(cfg, node, after) == RECORD_CONTEXT)
  {
    hide PrepareRequest, ResolveQuestionEntities, RouteQuery, PlanMetricIntent, ResolveMetricEntities, PlanMetricRequest,
      ExecuteMetric, GenerateSql, ValidateSql, RepairSql, ExecuteSql;
  }

  lemma {:induction false} WorkingAfterResolving(cfg: Config, turn: Turn, s: AgentState)
    requires !s.needsClarification && s.modelAction == Execute && ResolveQuestionEntities(cfg, turn, s).Updated?
    ensures var after := ResolveQuestionEntities(cfg, turn, s).state;
      Working(NextNode(cfg, RESOLVE_QUESTION_ENTITIES, after), after)
  {
    hide PendingOf, ChoicesText, Entities, QuestionEntities, Sent;
  }

  lemma {:induction false} WorkingAfterRouting(cfg: Config, turn: Turn, s: AgentState)
    requires !s.needsClarification && s.modelAction == Execute && RouteQuery(cfg, turn, s).Updated?
    ensures var after := RouteQuery(cfg, turn, s).state;
      Working(NextNode(cfg, ROUTE_QUERY, after), after)
  {
    RoutedStillWorks(cfg, turn, s);
    hide RouteQuery;
  }

  lemma {:induction false} RoutedStillWorks(cfg: Config, turn: Turn, s: AgentState)
    requires !s.needsClarification && s.modelAction == Execute && RouteQuery(cfg, turn, s).Updated?
    ensures var after := RouteQuery(cfg, turn, s).state;
      || after.executionRoute == ClarifyRoute || after.executionRoute == BlockRoute
      || (!after.needsClarification && after.modelAction == Execute)
  {
  }

  lemma {:induction false} WorkingAfterPlanning(cfg: Config, turn: Turn, s: AgentState)
    requires !s.needsClarification && s.modelAction == Execute
    ensures var after := PlanMetricIntent(turn, s);
      Working(NextNode(cfg, PLAN_METRIC_INTENT, after), after)
  {
  }

  lemma {:induction false} WorkingAfterNarrowing(cfg: Config, turn: Turn, s: AgentState)
    requires !s.needsClarification && s.modelAction == Execute && ResolveMetricEntities(cfg, turn, s).Updated?
    ensures var after := ResolveMetricEntities(cfg, turn, s).state;
      Working(NextNode(cfg, RESOLVE_METRIC_ENTITIES, after), after)
  {
    hide Narrow, DimensionsToResolve, WithFilters, Sent;
  }

  lemma {:induction false} WorkingAfterGenerating(cfg: Config, turn: Turn, s: AgentState)
    requires !s.needsClarification && s.modelAction == Execute && GenerateSql(turn, s).Updated?
    ensures var after := GenerateSql(turn, s).state;
      Working(NextNode(cfg, GENERATE_SQL, after), after)
  {
  }

  lemma {:induction false} WorkingStep(cfg: Config, turn: Turn, node: Node, s: AgentState)
    requires Working(node, s) && node != RECORD_CONTEXT && VisitNode(cfg, turn, node, s).Updated?
    ensures var after := VisitNode(cfg, turn, node, s).state;
      Working(NextNode(cfg, node, after), after)
  {
    if node == PREPARE_REQUEST {
      hide ResumeClarified;
    } else {
      hide ResolveQuestionEntities, RouteQuery, PlanMetricIntent, ResolveMetricEntities, GenerateSql, NextNode,
        PrepareRequest, PlanMetricRequest, ExecuteMetric, ValidateSql, RepairSql, ExecuteSql;
      match node {
        case RESOLVE_QUESTION_ENTITIES => WorkingAfterResolving(cfg, turn, s);
        case ROUTE_QUERY => WorkingAfterRouting(cfg, turn, s);
        case PLAN_METRIC_INTENT => WorkingAfterPlanning(cfg, turn, s);
        case RESOLVE_METRIC_ENTITIES => WorkingAfterNarrowing(cfg, turn, s);
        case GENERATE_SQL => WorkingAfterGenerating(cfg, turn, s);
        case _ => DecisionKept(cfg, turn, node, s);
      }
    }
  }

  predicate Reaches(e: Event) {
    e.Executed? || e.Queried?
  }

  lemma {:induction false} AnsweredNeedsNothing(cfg: Config, turn: Turn, node: Node, s: AgentState)
    requires Rank(node, s.repairAttempted) <= 2 && !s.needsClarification && s.modelAction == Execute
    ensures var x := RunFrom(cfg, turn, node, s);
      x.ending == Completed ==> x.state.context.Some? && x.state.context.value.clarificationState == NotNeeded
    decreases Rank(node, s.repairAttempted)
  {
    hide PrepareRequest, ResolveQuestionEntities, RouteQuery, PlanMetricIntent, ResolveMetricEntities, PlanMetricRequest,
      ExecuteMetric, GenerateSql, ValidateSql, RepairSql, ExecuteSql;
    if node != RECORD_CONTEXT {
      AnsweredNeedsNothing(cfg, turn, RECORD_CONTEXT, s);
    }
  }

  /** After an execution there is only the answer and the record. */
  lemma {:induction false} ActedThenAnswers(cfg: Config, turn: Turn, node: Node, s: AgentState)
    requires node == EXECUTE_SQL || node == EXECUTE_METRIC
    requires VisitNode(cfg, turn, node, s).Updated?
    ensures VisitNode(cfg, turn, node, s).state == s && Rank(NextNode(cfg, node, s), s.repairAttempted) <= 2
  {
    hide ExecuteSql, ExecuteMetric;
  }

  /** Only two nodes reach the database or the metric provider with what was asked. */
  lemma {:induction false} OnlyTwoNodesReach(cfg: Config, turn: Turn, node: Node, s: AgentState)
    requires node != EXECUTE_SQL && node != EXECUTE_METRIC
    ensures forall e :: e in VisitNode(cfg, turn, node, s).events ==> !Reaches(e)
  {
    hide VisitNode;
    if LooksUpAt(node) {
      VisitLooksUp(cfg, turn, node, s);
    } else {
      VisitSendsOne(cfg, turn, node, s);
      NoQueryHere(cfg, turn, node, s);
    }
  }

  lemma {:induction false} RunAsksOrActs(cfg: Config, turn: Turn, node: Node, s: AgentState)
    requires Working(node, s)
    ensures var x := RunFrom(cfg, turn, node, s);
      x.ending == Completed ==>
        x.state.context.Some?
        && (x.state.context.value.clarificationState != NotNeeded ==> forall e :: e in x.events ==> !Reaches(e))
    decreases Rank(node, s.repairAttempted)
  {
    var visit := VisitNode(cfg, turn, node, s);
    if visit.Updated? && node != RECORD_CONTEXT {
      EdgesDescend(cfg, turn, node, s);
      if node == EXECUTE_SQL || node == EXECUTE_METRIC {
        ActedThenAnswers(cfg, turn, node, s);
        AnsweredNeedsNothing(cfg, turn, NextNode(cfg, node, s), s);
        hide VisitNode, NextNode;
      } else {
        WorkingStep(cfg, turn, node, s);
        OnlyTwoNodesReach(cfg, turn, node, s);
        hide VisitNode, NextNode, Working, Reaches;
        RunAsksOrActs(cfg, turn, NextNode(cfg, node, visit.state), visit.state);
      }
    }
  }

  /** A turn recorded as needing clarification, or as blocked, executed no model-written SQL and queried no metric. */
  lemma {:induction false} ClarifiedTurnsActOnNothing(cfg: Config, turn: Turn, leftover: AgentState)
    requires RunTurn(cfg, turn, leftover).ending == Completed
    ensures var x := RunTurn(cfg, turn, leftover);
      x.state.context.Some?
      && (x.state.context.value.clarificationState != NotNeeded ==> forall e :: e in x.events ==> !Reaches(e))
  {
    RunAsksOrActs(cfg, turn, PREPARE_REQUEST, leftover);
  }

  // ---------------------------------------------------------------------------------------------
  // Clarification across turns

  /** Where a pending choice can be, and what it then is. */
  ghost predicate PendingIsOurs(cfg: Config, turn: Turn, before: Option<AnalyticalContext>, node: Node, s: AgentState) {
    && s.context == before
    && (node != PREPARE_REQUEST ==>
          s.question == turn.question && s.pinnedEntities == ResumeClarified(turn, before).1)
    && (node != PREPARE_REQUEST && s.pendingChoice.Some? ==>
          && (node == CLARIFY || node == RECORD_CONTEXT) && s.needsClarification
          && Entities(cfg, turn).Ambiguous? && s.pinnedEntities == [] && s.pendingChoice == Some(PendingOf(cfg, turn)))
  }

  lemma {:induction false} RequestKept(cfg: Config, turn: Turn, node: Node, s: AgentState)
    requires node != RECORD_CONTEXT && VisitNode(cfg, turn, node, s).Updated?
    ensures var after := VisitNode(cfg, turn, node, s).state;
      && after.context == s.context
      && (node != PREPARE_REQUEST ==> after.question == s.question && after.pinnedEntities == s.pinnedEntities)
      && (node != PREPARE_REQUEST && node != RESOLVE_QUESTION_ENTITIES ==> after.pendingChoice == s.pendingChoice)
      && (node == CLARIFY ==>
            after.needsClarification == s.needsClarification && NextNode(cfg, node, after) == RECORD_CONTEXT)
      && NextNode(cfg, node, after) != PREPARE_REQUEST
  {
    hide PrepareRequest, ResolveQuestionEntities, RouteQuery, PlanMetricIntent, ResolveMetricEntities, PlanMetricRequest, ExecuteMetric,
         GenerateSql, ValidateSql, RepairSql, ExecuteSql;
  }

  lemma {:induction false} PendingWhenPrepared(
    cfg: Config, turn: Turn, before: Option<AnalyticalContext>, s: AgentState)
    requires PendingIsOurs(cfg, turn, before, PREPARE_REQUEST, s)
    ensures var after := VisitNode(cfg, turn, PREPARE_REQUEST, s).state;
      PendingIsOurs(cfg, turn, before, NextNode(cfg, PREPARE_REQUEST, after), after)
  {
    hide ResumeClarified, PendingOf, ResolveQuestionEntities, RouteQuery, PlanMetricIntent, ResolveMetricEntities,
      PlanMetricRequest, ExecuteMetric, GenerateSql, ValidateSql, RepairSql, ExecuteSql;
  }

  lemma {:induction false} LeavingResolution(cfg: Config, turn: Turn, s: AgentState)
    ensures VisitNode(cfg, turn, RESOLVE_QUESTION_ENTITIES, s) == ResolveQuestionEntities(cfg, turn, s)
    ensures s.needsClarification ==> NextNode(cfg, RESOLVE_QUESTION_ENTITIES, s) == CLARIFY
  {
    hide ResolveQuestionEntities;
  }

  lemma {:induction false} ChoiceComesFromResolution(cfg: Config, turn: Turn, s: AgentState)
    requires ResolveQuestionEntities(cfg, turn, s).Updated?
    ensures var r := ResolveQuestionEntities(cfg, turn, s).state;
      || r.pendingChoice == s.pendingChoice
      || (Entities(cfg, turn).Ambiguous? && s.pinnedEntities == [] && r.pendingChoice == Some(PendingOf(cfg, turn))
          && r.needsClarification)
  {
    hide PendingOf, ChoicesText, QuestionEntities, Entities, Sent;
  }

  lemma {:induction false} PendingWhenResolved(
    cfg: Config, turn: Turn, before: Option<AnalyticalContext>, s: AgentState)
    requires PendingIsOurs(cfg, turn, before, RESOLVE_QUESTION_ENTITIES, s)
    requires VisitNode(cfg, turn, RESOLVE_QUESTION_ENTITIES, s).Updated?
    ensures var after := VisitNode(cfg, turn, RESOLVE_QUESTION_ENTITIES, s).state;
      PendingIsOurs(cfg, turn, before, NextNode(cfg, RESOLVE_QUESTION_ENTITIES, after), after)
  {
    hide VisitNode, NextNode, ResolveQuestionEntities, ResumeClarified, PendingOf, Entities;
    LeavingResolution(cfg, turn, s);
    LeavingResolution(cfg, turn, ResolveQuestionEntities(cfg, turn, s).state);
    ChoiceComesFromResolution(cfg, turn, s);
  }

  lemma {:induction false} PendingStep(
    cfg: Config, turn: Turn, before: Option<AnalyticalContext>, node: Node, s: AgentState)
    requires PendingIsOurs(cfg, turn, before, node, s)
    requires node != RECORD_CONTEXT && VisitNode(cfg, turn, node, s).Updated?
    ensures var after := VisitNode(cfg, turn, node, s).state;
      PendingIsOurs(cfg, turn, before, NextNode(cfg, node, after), after)
  {
    hide VisitNode, NextNode, ResumeClarified, PendingOf, Entities;
    if node == PREPARE_REQUEST {
      PendingWhenPrepared(cfg, turn, before, s);
    } else if node == RESOLVE_QUESTION_ENTITIES {
      PendingWhenResolved(cfg, turn, before, s);
    } else {
      RequestKept(cfg, turn, node, s);
    }
  }

  /** What a completed turn may record as pending: what this turn asked, and only if it was not a reply. */
  ghost predicate RecordsOwnChoice(cfg: Config, turn: Turn, before: Option<AnalyticalContext>, context: AnalyticalContext) {
    context.pendingChoice.Some? ==>
      && context.clarificationState == Required
      && Entities(cfg, turn).Ambiguous?
      && context.pendingChoice.value == PendingOf(cfg, turn)
      && ResumeClarified(turn, before).1 == []
  }

  lemma {:induction false} RunRecordsOwnChoice(
    cfg: Config, turn: Turn, before: Option<AnalyticalContext>, node: Node, s: AgentState)
    requires PendingIsOurs(cfg, turn, before, node, s)
    ensures var x := RunFrom(cfg, turn, node, s);
      if x.ending == Completed then x.state.context.Some? && RecordsOwnChoice(cfg, turn, before, x.state.context.value)
      else x.state.context == before
    decreases Rank(node, s.repairAttempted)
  {
    hide VisitNode, NextNode, PendingIsOurs, RecordsOwnChoice;
    var visit := VisitNode(cfg, turn, node, s);
    if visit.Updated? && node != RECORD_CONTEXT {
      EdgesDescend(cfg, turn, node, s);
      PendingStep(cfg, turn, before, node, s);
      RunRecordsOwnChoice(cfg, turn, before, NextNode(cfg, node, visit.state), visit.state);
    } else {
      LastVisitRecordsOwnChoice(cfg, turn, before, node, s);
    }
  }

  lemma {:induction false} LastVisitRecordsOwnChoice(
    cfg: Config, turn: Turn, before: Option<AnalyticalContext>, node: Node, s: AgentState)
    requires PendingIsOurs(cfg, turn, before, node, s)
    requires node == RECORD_CONTEXT || VisitNode(cfg, turn, node, s).Raised?
    ensures s.context == before
    ensures node == RECORD_CONTEXT ==>
      var visit := VisitNode(cfg, turn, node, s);
      visit.Updated? && visit.state.context.Some? && RecordsOwnChoice(cfg, turn, before, visit.state.context.value)
  {
    hide Entities, PendingOf, ResumeClarified;
  }

  lemma {:induction false} TurnRecordsOwnChoice(cfg: Config, turn: Turn, leftover: AgentState)
    ensures var x := RunTurn(cfg, turn, leftover);
      if x.ending == Completed
      then x.state.context.Some? && RecordsOwnChoice(cfg, turn, leftover.context, x.state.context.value)
      else x.state.context == leftover.context
  {
    RunRecordsOwnChoice(cfg, turn, leftover.context, PREPARE_REQUEST, leftover);
    hide RunFrom, RecordsOwnChoice;
  }

  /** The checkpoint after a thread's turns, whether each completed or failed on the way. */
  ghost function Thread(cfg: Config, start: AgentState, turns: seq<Turn>): AgentState {
    if turns == [] then start
    else RunTurn(cfg, turns[|turns| - 1], Thread(cfg, start, turns[..|turns| - 1])).state
  }

  ghost function LastCompleted(cfg: Config, start: AgentState, turns: seq<Turn>): (j: Option<nat>)
    ensures j.Some? ==> j.value < |turns|
  {
    if turns == [] then None
    else
      var n := |turns| - 1;
      if RunTurn(cfg, turns[n], Thread(cfg, start, turns[..n])).ending == Completed then Some(n)
      else LastCompleted(cfg, start, turns[..n])
  }

  /** The context a thread carries is the one its last completed turn recorded. */
  lemma {:induction false} ThreadContext(cfg: Config, start: AgentState, turns: seq<Turn>)
    requires start.context.None?
    ensures var j := LastCompleted(cfg, start, turns);
      var context := Thread(cfg, start, turns).context;
      if j.None? then context.None?
      else
        context.Some?
        && RecordsOwnChoice(cfg, turns[j.value], Thread(cfg, start, turns[..j.value]).context, context.value)
  {
    hide RunFrom, RecordsOwnChoice;
    if turns != [] {
      var n := |turns| - 1;
      var before := Thread(cfg, start, turns[..n]);
      ThreadContext(cfg, start, turns[..n]);
      TurnRecordsOwnChoice(cfg, turns[n], before);
      var j := LastCompleted(cfg, start, turns[..n]);
      if j.Some? {
        assert turns[..n][..j.value] == turns[..j.value];
      }
    }
  }

  /**
   * Over every thread of turns, whatever else an earlier turn left behind: a turn that pins an
   * entity is a reply to the last completed turn. The entity is a choice that turn offered, the
   * reply names it, and the question resumed is that turn's own question.
   */
  lemma {:induction false} PinnedEntityWasOffered(cfg: Config, start: AgentState, turns: seq<Turn>, turn: Turn)
    requires start.context.None?
    requires ResumeClarified(turn, Thread(cfg, start, turns).context).1 != []
    ensures var j := LastCompleted(cfg, start, turns);
      var resumed := ResumeClarified(turn, Thread(cfg, start, turns).context);
      && j.Some? && Entities(cfg, turns[j.value]).Ambiguous?
      && |resumed.1| == 1
      && resumed.1[0].entity == Entities(cfg, turns[j.value]).entityName
      && resumed.1[0].choice in Entities(cfg, turns[j.value]).candidates
      && resumed.1[0].choice.canonicalKey != ""
      && turn.names(turn.question, resumed.1[0].choice.canonicalKey)
      && resumed.0 == turns[j.value].question
  {
    ThreadContext(cfg, start, turns);
    hide Thread, LastCompleted;
  }

  /** A reply never leaves a new choice pending, so no choice outlives the next completed turn. */
  lemma {:induction false} RepliesLeaveNothingPending(cfg: Config, turn: Turn, leftover: AgentState)
    requires RunTurn(cfg, turn, leftover).ending == Completed
    ensures var context := RunTurn(cfg, turn, leftover).state.context;
      && context.Some?
      && (ResumeClarified(turn, leftover.context).1 != [] ==> context.value.pendingChoice.None?)
      && (context.value.pendingChoice.Some? ==>
            context.value.clarificationState == Required
            && context.value.pendingChoice.value.originalQuestion == turn.question)
  {
    RunRecordsOwnChoice(cfg, turn, leftover.context, PREPARE_REQUEST, leftover);
    hide RunTurn, ResumeClarified;
  }
}
