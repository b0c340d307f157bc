# Verified model of the analytics agent

This project models, in Dafny, the parts of the analytics agent that decide what may be certified,
what may be executed and what an answer may say, and proves what those parts keep over every run.
SQL text, the language model and the database stay opaque: they are parameters, so every statement
holds for whatever they answer.

| file | models |
|---|---|
| `Dependencies.dfy` | the depth-first cycle check as an object with its two sets, against reachability |
| `Expressions.dfy`, `Decimals.dfy` | derived-metric expressions: validation, evaluation, substitution, printing and a parser that undoes it |
| `Candidates.dfy` | the candidate store and its review; registries over every run of generate, approve, edit and reject |
| `MetricRegistry.dfy` | the registry's other writer, which sets a metric's status; runs that mix it with reviews |
| `Composition.dfy` | joining per-metric results after aggregation |
| `Evaluation.dfy` | comparing a benchmark answer with what was expected, and what moved between runs |
| `SearchTerms.dfy` | the fragments of a question that are searched for |
| `EntityLookup.dfy` | live entity values: which reviewed columns may be searched, what is sent, and which choices come back |
| `Workflow.dfy` | one turn of the request workflow from arbitrary leftover state, and threads of turns |
| `WorkflowOutcomes.dfy` | what a turn comes to, written out without nodes or state, and the graph computing just that |
| `WorkflowLookups.dfy`, `WorkflowLeftovers.dfy` | the lookups a turn sends, and when several metrics compose, and what an earlier turn's queries do to it |
| `GatewayCache.dfy` | the bounded cache that owns database gateways |
| `JobQueue.dfy` | the generation job table and any interleaving of the workers that use it |
| `Merging.dfy`, `Discovery.dfy` | merging proposals, building a semantic model, reviewing it, reconciling it with a schema |
| `Lifecycle.dfy`, `Coverage.dfy` | the status of every mapping after any reviews and rescans; which real columns a discovery covers |
| `Rounding.dfy`, `Grounding.dfy` | when an answer is supported by the rows of its result |
| `ResultBounds.dfy` | keeping as many rows as fit a byte budget |
| `Conversations.dfy` | transcripts, paging through them, and what a stored answer is cut down to |
| `Sequences.dfy`, `StringOrder.dfy`, `Wrappers.dfy` | distinct elements in order of appearance; the order of strings, sorting and joining; `Option` and `Result` |

Code that changes objects in place is modelled by classes and methods (`Walk`, `CandidateReview`,
`DataSourceRuntimeProvider`, `PostgresGenerationJobQueue`, `InMemoryConversationStore`) and by loops;
each is proved equal to a function of the old state, and the promises are proved about that function,
over all runs. Workflow nodes return updates in the source and are functions here.

What is opaque is passed in: case folding, which characters are blank or part of a word (`Kinds`), regular
expressions and how prose numerals are found (`Reading`, `TextRules`, `Fold`), the SQL validator and the temporal check, everything the language
model or the router answers in a turn (`Turn`), what the database answers to a lookup of entity values,
whether a provider or a database call succeeds, the size of a serialized payload, how a row is written
as JSON, the current time, and fresh identifiers (numbers). Numbers are finite decimals (sign,
coefficient, exponent) where digits matter and reals elsewhere.

Where the code does not do what its comments or its design say, the code was followed, and a member says
exactly when that happens.

* `app/knowledge/worker.py:70-77` says that another worker may retry a job left RUNNING. A running job
  is handed out again in some continuation if and only if a live worker still holds it and it has
  attempts left (`JobQueue.RunningJobReturnsExactly`), so never after its worker dies
  (`JobQueue.CrashEndsRetries`), and its cluster is then never queued again
  (`JobQueue.OrphanIsNeverReclaimed`).
* `app/knowledge/execution.py:109-115` says that two callers wanting different sampling must not share
  a gateway. A request shares its key with one for other columns if and only if its sorted columns are
  not one column, or are one empty column, or are one whose text can be cut at a bar into two parts in
  order (`GatewayCache.SharesAKeyExactly`). Requests whose columns hold no bar, and are not one empty
  one, never share among themselves (`GatewayCache.KeysTellCallersApart`).
* `app/data/postgres.py:369-379` fetches one row more than the maximum to notice a cut, but the
  statement was given the maximum as its LIMIT before (`app/security/sql_validation.py:308-321`). A cut
  goes unreported if and only if there are more rows than the maximum and the first ones fit the byte
  budget (`ResultBounds.Execute`, `ResultBounds.CutGoesUnreported`).
* Preparing a request does not clear `additional_metric_queries`, and only semantic planning writes
  them. They are sent with a later turn's metric if and only if that turn is planned without semantic
  planning and any were left (`Workflow.LeftoverQueriesDecide`). That takes a thread that outlives a
  change of configuration: one is shown (`WorkflowLeftovers.LeftoverQueryIsSent`), and under one
  configuration it never happens (`WorkflowLeftovers.OneConfigurationSendsThePlan`). Every metric
  queried is authorized in any case.
* `app/knowledge/discovery.py:434-440` says that a mapping whose table or column has disappeared becomes
  STALE. For entities and attributes it does. A rescan leaves a relationship confirmed although the
  schema does not bear it out if and only if it finds neither end lost and, at one of them, the table is
  there without the column of the join, or the entity was rejected and its table is gone
  (`Discovery.UntrueRelationshipExactly`; one input of each kind is `Lifecycle.LostColumnsAreMissed` and
  `Lifecycle.RejectedEndIsMissed`).
* `app/semantic/entity_values.py:184-186` says that the full question is not sent to SQL. It is the
  parameter of the first lookup whenever there is any lookup: if and only if a reviewed binding can be
  read and the question without its outer blanks has at least three characters
  (`EntityLookup.WholeQuestionIsSentExactly`).
* `approve_metric` validates against the registry of the moment because a dependency may have been
  deprecated (`app/knowledge/candidates.py:533-536`), but setting a status validates nothing
  (`app/knowledge/metrics.py:195-215`), so certified metrics can come to depend on each other in a ring
  (`MetricRegistry.StatusChangesCanCloseACycle`). A status keeps the registry safe if and only if a metric
  being certified has certified dependencies and one ceasing to be is no other's dependency
  (`MetricRegistry.SetStatusKeepsSafeExactly`, `MetricRegistry.RunStaysSafeExactly`).
* A governed row that holds one dimension and nothing else is read as its own measure
  (`app/knowledge/composition.py:138-149`), so the dimension's value lands in the metric's column: exactly
  then (`Composition.DimensionIsMeasureExactly`, `Composition.DepartmentReadAsPay`). No slices at all are
  accepted with no rows even where metrics were planned (`Composition.AcceptedExactly`).
* Preparing a request does not clear `temporal_repair_hint` either. The repair of a later turn is asked for
  the period an earlier one missed if and only if its own statement misses none and one was left
  (`WorkflowOutcomes.RepairIsToldExactly`; `WorkflowOutcomes.EarlierCorrectionIsAsked` gives the inputs).
* Proposals are merged up to case but looked up as they are written, so a more confident proposal of a
  real table in another case drops the table (`Coverage.RecasingDropsTheTable`);
  `Coverage.ColumnIsCoveredExactly` says which real columns are covered.
* Greedy matching can miss an assignment (`Evaluation.ToleranceCanMissAnAssignment`,
  `Evaluation.ColumnsCanMissAnAssignment`). It is right on every selection of the rows, in every order,
  if and only if expected rows that share a candidate share them all (`Evaluation.RectangularExactly`).
* A later approval can take away a dimension an earlier metric still offers
  (`Candidates.OverwriteCanUnshare`); `Candidates.PromotionSharesExactly` says exactly when.
* What is stored of an answer can exceed its byte cap (`Conversations.StoredExceedsCapExactly`).

## Model

| member | source | states |
|---|---|---|
| Dependencies.Walk.Visit | app/knowledge/expressions.py:198-214 | one visit succeeds exactly when no cycle is reachable from the key; then it settles exactly what the key reaches and leaves the path as it was; it terminates on every graph |
| Dependencies.OneKeyDecides | app/knowledge/expressions.py:183-197 | replacing the edges of one key of an acyclic graph leaves it acyclic if and only if no cycle is reachable from that key, so checking from the proposed key alone is enough |
| Expressions.AssertAcyclic | app/knowledge/expressions.py:183-214 | refuses if and only if some cycle is reachable from the proposed key in the graph with its edges replaced; on success the settled set is exactly the reachable set |
| Expressions.RefusedExactlyWhenCyclic | app/knowledge/expressions.py:183-214 | over an acyclic registry, a definition is refused exactly when adding it would make the registry cyclic |
| Expressions.FreshKeyNeverRefused | app/knowledge/expressions.py:183-214 | a key not yet certified can never close a cycle |
| Expressions.ValidateExpression | app/knowledge/expressions.py:153-180 | accepted exactly when shallow enough, with at least one reference, all of them available and none to itself |
| Expressions.AcceptedExpressionIsSmall | app/knowledge/expressions.py:27-29 | an accepted expression has at most 63 nodes, so one evaluation visits at most that many |
| Expressions.OperatorsAre | app/knowledge/expressions.py:217-247 | over defined operands: the sum, the difference, and the quotient unless the divisor is zero |
| Expressions.MultiplyIsProduct | app/knowledge/expressions.py:217-247 | and the product |
| Expressions.EvaluateReadsReferencesOnly | app/knowledge/expressions.py:217-247 | two sets of measures that agree on the referenced metrics give the same value |
| Expressions.EvaluateUndefined | app/knowledge/expressions.py:217-247 | the value is missing exactly when a referenced measure is missing or some divisor is zero |
| Expressions.EvaluateSubstituted | app/knowledge/expressions.py:217-247 | evaluating a tree with definitions written into it is evaluating it over their computed values, missing values included |
| Expressions.DependenciesFirstIsSubstitution | app/knowledge/expressions.py:217-247 | computing any list of definitions in order gives each key the value of its fully substituted definition |
| Expressions.FlattenReadsBaseOnly | app/knowledge/expressions.py:136-143 | when definitions come after what they use, the fully substituted trees mention base metrics only |
| Dependencies.OrderExists | app/knowledge/expressions.py:183-214 | what the cycle check is for: every closed acyclic graph can be worked through with dependencies first |
| Expressions.OneEvaluation | app/knowledge/expressions.py:217-247 | definitions over a closed acyclic graph have exactly one consistent set of values, given both by working through an order and by substitution |
| Decimals.ParseStr | app/knowledge/expressions.py:250-253 | reading a printed decimal gives back the same sign, coefficient and exponent, in plain and in scientific form |
| Expressions.ParseUndoesDescribe | app/knowledge/expressions.py:250-260 | a parser undoes the printer, whatever text follows, for keys that are not numerals and hold no blank or parenthesis |
| Expressions.DescribeIsInjective | app/knowledge/expressions.py:250-260 | definitions over such keys that print alike are the same definition |
| Expressions.KeysThatPrintAlike | app/knowledge/expressions.py:250-260 | a key prints like a number or an operation over plain keys if and only if reading its text gives one that prints so; no such key is plain |
| Expressions.OperatorsInKeysPrintAlike | app/knowledge/expressions.py:250-260 | a key holding an operator between blanks prints like an operation over other keys |
| Candidates.CandidateReview.ApproveMetric | app/knowledge/candidates.py:524-602 | every refusal, in the source's order, changing nothing; otherwise the first such candidate ends approved by this reviewer and pointing at its metric, all else of it kept, no other candidate changing, and the registry changes at that key only, to the certified definition traced to the candidate |
| Candidates.CandidateReview.RejectCandidate | app/knowledge/candidates.py:483-498 | fails exactly when there is no such candidate; otherwise the first one ends rejected with that reason and reviewer, its proposal and version kept; no other candidate changes, moves, appears or goes, and the registry is untouched |
| Candidates.CandidateReview.EditCandidate | app/knowledge/candidates.py:500-522 | fails exactly when there is no such candidate; otherwise the first one ends proposed again with the new proposal and the next version; no other candidate changes, moves, appears or goes, and the registry is untouched |
| Candidates.CandidateReview.AssertDimensionsAreShared | app/knowledge/candidates.py:887-910 | names the first dimension, in the proposal's order, that some dependency lacks, and the first dependency, in the order given, that lacks it; none exactly when all are offered by all |
| Candidates.RunKeepsSafe | app/knowledge/candidates.py:524-602 | over every run of generate, approve, edit and reject, certified metrics depend on certified metrics only and never in a cycle, overwrites included |
| Candidates.CycleRefusalIsExact | app/knowledge/candidates.py:547-563 | a valid definition is refused as circular exactly when storing it would break that, and never for a key not yet certified |
| Candidates.PromotionSharesExactly | app/knowledge/candidates.py:567-592 | storing an accepted definition keeps dimensions shared if and only if every metric built on its key offers no dimension the new definition lacks |
| Candidates.OverwriteCanUnshare | app/knowledge/candidates.py:500-592 | a concrete run of generate, edit and approve that redefines a key others are built on, after which a metric offers a dimension its input does not |
| Candidates.SharedTransitively | app/knowledge/candidates.py:887-910 | while dimensions are shared, every dimension a metric offers is offered by everything in its dependency closure |
| Candidates.FreshRunKeepsShared | app/knowledge/candidates.py:524-602 | runs whose approvals are of keys not yet certified keep dimensions shared |
| Candidates.CertifiedOnlyByApproval | app/knowledge/candidates.py:524-602 | over every run, a registry entry that changed is the certified definition of a candidate approved in the run: not rejected, and valid, acyclic and dimension-safe against the registry of that moment |
| Candidates.PromotionGraph | app/knowledge/candidates.py:569-592 | certifying a metric sets that key's dependencies in that data source's graph and leaves every other edge and every other data source alone |
| Candidates.CertifiedMetricsEvaluate | app/knowledge/candidates.py:524-602 | after every run, certified definitions have exactly one consistent value each, whatever the base measures, and an order of evaluation that gives it |
| Candidates.StoredTextIdentifiesDefinition | app/knowledge/candidates.py:577 | two metrics over plain keys stored with the same text had the same expression and so the same dependencies |
| Candidates.RunKeepsPatterns | app/knowledge/candidates.py:364-459 | over every run there is at most one candidate for a question pattern, and no stored candidate disappears, moves or changes its pattern |
| Candidates.GenerateExactly | app/knowledge/candidates.py:364-449 | generation adds one candidate, as proposed and in its first version, if and only if the pattern has none of any type and the payload is a new valid metric, an example with evidence, or another idea; otherwise nothing changes |
| Candidates.RejectedUntilEdited | app/knowledge/candidates.py:483-541 | a rejected candidate stays rejected, and no reviewer can approve it, over every run that does not edit it |
| Candidates.StatusIsLastReview | app/knowledge/candidates.py:483-602 | over every run, a candidate is as the last review of it that took effect left it, with that reviewer; one no review took effect on is as it was, or proposed if it is new |
| Candidates.ApprovedExactly | app/knowledge/candidates.py:593-600 | a candidate that did not begin approved is approved if and only if the last review of it that took effect was a successful approval |
| MetricRegistry.InMemoryMetricRegistry.SetStatus | app/knowledge/metrics.py:195-215 | changes the status of that metric only and nothing else of it, or fails exactly when there is none |
| MetricRegistry.SetStatusKeepsSafeExactly | app/knowledge/metrics.py:195-215 | a status keeps a safe registry safe if and only if a metric being certified has certified dependencies, and one that is to be anything else is no other certified metric's dependency |
| MetricRegistry.RunStaysSafeExactly | app/knowledge/metrics.py:195-215 | over every run of reviews and status changes the registry is safe at every moment if and only if each status set passes that check; reviews need none |
| MetricRegistry.StatusChangesCanCloseACycle | app/knowledge/candidates.py:533-563 | a concrete run that deprecates a metric, approves a definition built on it and certifies it again, after which a certified metric depends on itself |
| Composition.AssertUniqueGrain | app/knowledge/composition.py:119-135 | accepts a slice exactly when no dimension tuple occurs in it twice |
| Composition.Compose | app/knowledge/composition.py:62-116 | the loops over dictionaries compute the join defined row by row, or the source's error |
| Composition.JoinKeys | app/knowledge/composition.py:90-100 | the joined tuples are those of the planned slices and no others, none twice, in order of first appearance |
| Composition.ComposedIsFullOuterJoin | app/knowledge/composition.py:62-116 | one row per such tuple with exactly the planned columns; each cell is the one row's measure in that metric's slice, or null where the slice has no such row |
| Composition.EveryMetricIsConserved | app/knowledge/composition.py:62-116 | for any weighting that gives null nothing (the sum, the non-null count), a metric's column in the result totals what its slice does |
| Composition.AcceptedExactly | app/knowledge/composition.py:62-149 | composed exactly when every slice is at the plan's grain without fan-out, every planned metric has a slice, and every row of it a readable measure; or when there are no slices, with no rows |
| Composition.DimensionIsMeasureExactly | app/knowledge/composition.py:138-149 | a metric's column of an accepted composition holds a dimension's value exactly where the metric's row holds one dimension and nothing else; it repeats that dimension of its own row |
| Composition.DepartmentReadAsPay | app/knowledge/composition.py:138-149 | the input: a row with a department only, read as what it is paid |
| Evaluation.CompareUnordered | app/knowledge/evaluation.py:297-315 | the loop that removes matched rows decides the greedy matching of equally many rows |
| Evaluation.GreedyIsSound | app/knowledge/evaluation.py:297-315 | a pass always comes with distinct actual rows, one for each expected row, that match |
| Evaluation.GreedyIsComplete | app/knowledge/evaluation.py:297-333 | where rows that match a common row match the same rows, any assignment at all makes it pass |
| Evaluation.GreedyIsExact | app/knowledge/evaluation.py:297-333 | under that condition it passes if and only if an assignment exists |
| Evaluation.RectangularExactly | app/knowledge/evaluation.py:297-333 | the condition is needed: it holds if and only if the greedy verdict is right on every selection of the two tables in every order |
| Evaluation.ToleranceCanMissAnAssignment | app/knowledge/evaluation.py:336-342 | with a tolerance the greedy pass can fail although an assignment exists |
| Evaluation.ColumnsCanMissAnAssignment | app/knowledge/evaluation.py:318-333 | so it can at tolerance zero when expected rows name different columns, and then row order decides |
| Evaluation.GreedyIsMultisetEquality | app/knowledge/evaluation.py:278-333 | at tolerance zero with the same columns named, it passes exactly when the two projected multisets of rows are equal |
| Evaluation.VerdictIgnoresRowOrder | app/knowledge/evaluation.py:278-342 | there, permuting either side does not change the verdict |
| Evaluation.Compare | app/knowledge/evaluation.py:214-256 | passes exactly when a named route is the named expected one, all expected metrics were used, and the rows meet the expectation |
| Evaluation.LikeMatchesLike | app/knowledge/evaluation.py:336-373 | at every tolerance: two texts that read as no number match exactly when they differ in outer blanks only, numbers when they are within the tolerance, truth values when equal |
| Evaluation.UnlikeMatchesByText | app/knowledge/evaluation.py:336-373 | values of different kinds match exactly by what they are written as: nothing as "null", a truth value as "True" or "False", a number as rendered, a text stripped |
| Evaluation.RowsMatchExactly | app/knowledge/evaluation.py:318-333 | two rows match exactly when every expected column is there up to case with a matching value, the last of those that fold alike counting |
| Evaluation.TablePassIsAssignment | app/knowledge/evaluation.py:278-315 | a table case that passes, ordered or not, has an assignment of its expected rows to all the actual ones |
| Evaluation.Movements | app/knowledge/evaluation.py:401-428 | what each case's movement means in terms of its last outcome in either run; a regression is a pass that no longer is |
| Evaluation.LastOutcomeExactly | app/knowledge/evaluation.py:401-428 | where a run records a case twice, its last result counts |
| Workflow.EdgesDescend | app/agent/graph.py:184-290 | every edge leads nearer the end, so every turn halts from every state |
| WorkflowOutcomes.TurnComesToWhatIsExpected | app/agent/graph.py:184-290 | the graph refines a straight account of a turn without nodes or state: from any leftover state it sends the same, in the same order, to validator, repair model, database and metric provider, ends the same way, asks and refuses in the same words, and records the same for the next turn |
| WorkflowOutcomes.SqlIsSentExactly | app/agent/graph.py:1312-1479 | from any leftover state, a statement is validated, repaired or executed if and only if the turn goes to written SQL, and then it is executed if and only if the generated SQL, or the repair of one that failed repairably, is approved as it; a repair is sent if and only if there was such a failure and the repair model answers |
| WorkflowOutcomes.RepairIsToldExactly | app/agent/graph.py:1312-1472 | from any leftover state, a completed turn names an error exactly where a repair helped, and then its own first one; a repair is asked for the period this turn's statement misses, and otherwise for whatever an earlier turn left |
| WorkflowOutcomes.EarlierCorrectionIsAsked | app/agent/graph.py:1458-1470 | without a router or live entity values, every turn whose statement fails repairably for anything but its period asks the repair for the correction an earlier turn left |
| WorkflowOutcomes.NarrowedExactly | app/agent/graph.py:519-600 | resolving the entities of a plan goes through if and only if no lookup fails and no dimension's value could be several |
| WorkflowOutcomes.FiltersCarryExactly | app/agent/graph.py:519-600 | then each dimension is filtered once, by the value the question names for it, the last where several metrics name it, and by nothing else new |
| WorkflowOutcomes.FilteredExactly | app/agent/graph.py:519-600 | a query keeps its filters on dimensions nothing new is known of and gains the new ones its metric offers; its metric and grain stay |
| WorkflowOutcomes.DimensionsExactly | app/agent/graph.py:536-575 | the dimensions looked up for a plan are exactly the entity dimensions of its metrics |
| WorkflowOutcomes.OffersExactly | app/agent/graph.py:536-545 | a metric takes a filter on exactly the dimensions it is known to have |
| WorkflowOutcomes.PlanLookupsExactly | app/agent/graph.py:844-870 | planning a single metric looks its dimensions up in turn and goes on if and only if none of the lookups fails |
| WorkflowOutcomes.QueriesExactly | app/agent/graph.py:889-990 | metrics are queried in their planned order, up to and with the first that is not answered |
| WorkflowOutcomes.ChoicesAreWorded | app/agent/graph.py:582-595 | a question back lists each choice by its key and its label |
| WorkflowOutcomes.ResumedExactly | app/agent/graph.py:353-391 | a turn is taken as a reply if and only if a choice was left to make and it names one of the choices and no other; then the earlier question is resumed with that choice |
| WorkflowOutcomes.ResolutionExactly | app/agent/graph.py:625-680 | nothing found settles nothing, one value is it, and several are all offered, under the name of their one entity if they have one |
| WorkflowOutcomes.ResolvedEntitiesExactly | app/agent/graph.py:625-680 | a turn goes on with the choice a reply made, or the one actionable value found, or with none |
| WorkflowOutcomes.OfferedExactly | app/agent/graph.py:625-680 | the choices a question back offers are exactly the candidates with a key to name |
| WorkflowOutcomes.TurnRecordsItself | app/agent/graph.py:1623-1648 | from any leftover state, a completed turn records its own question, the question it resumed, and the route and query it ended with |
| WorkflowOutcomes.WithoutRouterIsAdhoc | app/agent/graph.py:184-290 | without a router, a completed turn is recorded as ad hoc unless it asks back about an entity, whatever an earlier turn was |
| Workflow.TurnIsBounded | app/agent/graph.py:1312-1425 | a turn from any leftover state validates at most twice, repairs at most once and executes model-written SQL at most once |
| Workflow.CompletedTurnCountsAttempts | app/agent/graph.py:1324-1327 | the recorded attempts of a completed turn are the validations it made |
| Workflow.OnlyApprovedSqlIsExecuted | app/agent/graph.py:1312-1479 | every model-written statement executed is the validated form of SQL generated or repaired in the same turn, and passed the validator and the temporal check |
| Workflow.OnlyAuthorizedMetricsAreQueried | app/agent/graph.py:889-906 | no turn queries a metric its own authorization does not allow, whatever was left over |
| Workflow.LeftoverQueriesDecide | app/agent/graph.py:315-348 | a completed governed turn queries just the metrics it planned exactly when it was planned semantically or nothing was left over |
| WorkflowLeftovers.OneConfigurationSendsThePlan | app/agent/graph.py:844-886 | a thread that starts clean under one configuration always queries just the metrics each turn plans |
| WorkflowLeftovers.LeftoverQueryIsSent | app/agent/graph.py:889-906 | a concrete thread across a change of configuration whose second turn queries a metric it did not plan |
| WorkflowLeftovers.SeveralMetricsAnswerExactly | app/agent/graph.py:889-1009 | a turn with several metrics goes on to its answer if and only if all are authorized and answered, every answer is at the first one's grain without fan-out, and every row has a measure |
| Workflow.ClarifiedTurnsActOnNothing | app/agent/graph.py:1223-1310 | a completed turn that asked back or was blocked executed no model-written SQL and queried no metric |
| WorkflowLookups.ClarifiedTurnLooksUpExactly | app/agent/graph.py:519-680 | such a turn has sent lookups of entity values if and only if there is a gateway, a readable reviewed entity and a question of at least three characters, and it was no reply or was let through to planned metrics |
| WorkflowLookups.OnlyTrustedLookupsAreSent | app/agent/graph.py:519-680 | from any leftover state, every lookup a turn sends is over reviewed columns its caller may read, for its own question or one to four consecutive words of it |
| WorkflowLookups.LookupsAreBounded | app/agent/graph.py:519-680 | a turn sends at most 32 lookups for each readable entity, once for the question and once for each entity dimension of the metrics it planned |
| Workflow.PinnedEntityWasOffered | app/agent/graph.py:353-391 | over any thread of turns, a pinned entity is one of the candidates the last completed turn offered, the reply named it, and the question resumed is that turn's |
| WorkflowLookups.PinnedEntityWasFound | app/agent/graph.py:353-391 | and it is a row that a lookup of that turn returned |
| Workflow.RepliesLeaveNothingPending | app/agent/graph.py:1623-1648 | a resumed turn records no new choice; a recorded choice means clarification is required and carries this turn's question |
| EntityLookup.BindingsAreReviewed | app/semantic/entity_values.py:58-121 | only entities confirmed together with a key and a label, in columns the caller may read, can be searched, and a concept only narrows them |
| EntityLookup.BindingsExactly | app/semantic/entity_values.py:58-121 | what can be searched is exactly one binding for each confirmed entity of the concept asked for, in a readable table, with a usable key and a usable display name, the first of each in the model |
| SearchTerms.WordsExactly | app/semantic/entity_values.py:205 | the words found are exactly the maximal stretches of word characters |
| SearchTerms.FindTerms | app/semantic/entity_values.py:204-225 | the loops over widths, windows and phrases compute the first eight different phrases that are long enough, in the order they are built |
| SearchTerms.TermsAreFragments | app/semantic/entity_values.py:179-225 | at most eight different terms of three characters or more, each the whole question without its outer blanks or one to four consecutive words of it; the whole question is the first, and without it there are none |
| SearchTerms.ByLengthInOrder | app/semantic/entity_values.py:213 | single words are tried longest first, alphabetically where equally long, and none is dropped |
| EntityLookup.LooseLookupsAreLiteral | app/semantic/entity_values.py:179-201 | escaped, a fragment matches exactly the labels that start with it or contain it as written |
| EntityLookup.LookUp | app/semantic/entity_values.py:150-176 | the ladder stops at the first lookup that finds rows or fails, and sends nothing after it |
| EntityLookup.ResolveValues | app/semantic/entity_values.py:130-148 | the loop over bindings collects what their ladders find until one fails, and sends them in order |
| EntityLookup.OnlyTrustedLookups | app/semantic/entity_values.py:130-176 | every lookup is over a reviewed binding, for the question or one to four of its words; at most 32 a binding, and any at all exactly when there is a binding and the question has three characters |
| EntityLookup.WholeQuestionIsSentExactly | app/semantic/entity_values.py:179-198 | the whole question is a lookup's parameter if and only if there is a binding and it has three characters; it is then the parameter of the very first lookup |
| EntityLookup.ChoicesWereFound | app/semantic/entities.py:335-404 | at most five choices, no two the same, each a row that a lookup of this call returned |
| EntityLookup.RankedInOrder | app/semantic/entities.py:397-403 | choices are ranked by confidence, then by key, then by label, and none is lost |
| EntityLookup.MatchingExactly | app/semantic/entities.py:357-396 | the matches of a rung are candidates that score there, and every choice that scores there is among them |
| EntityLookup.ResolvedExactly | app/semantic/entities.py:335-355 | the choices are the best five of the strictest rung on which any candidate scores: by key, exactly by label, by prefix, loosely |
| GatewayCache.DataSourceRuntimeProvider.ContextFor | app/knowledge/execution.py:101-128 | under the key of the source and its sorted columns: on success the recency step on the cache and the gateway returned; on any failure nothing changed |
| GatewayCache.DataSourceRuntimeProvider.EvictIfNeeded | app/knowledge/execution.py:162-165 | the loop closes least recently used gateways, oldest first, until the limit holds |
| GatewayCache.DataSourceRuntimeProvider.Close | app/knowledge/execution.py:167-172 | everything cached is closed once, in order, and the cache is empty |
| GatewayCache.RunIsLru | app/knowledge/execution.py:101-172 | over every run the cache holds the most recently used distinct keys, as many as fit, in recency order, and every gateway ever built is cached once and open or closed once |
| GatewayCache.ReturnedIsOpenExactly | app/knowledge/execution.py:101-128 | the gateway returned is open if and only if the limit is at least one |
| GatewayCache.CloseKeepsOwned | app/knowledge/execution.py:167-172 | after closing, every gateway ever built has been closed exactly once |
| GatewayCache.AnsweredForItsKey | app/knowledge/execution.py:101-128 | over every run, each request is answered with a gateway that was built for its own key |
| GatewayCache.SharedGatewayMeansSameCaller | app/knowledge/execution.py:107-128 | two requests of a run get the same gateway only for equal keys: with separable columns, only for the same source and the same columns |
| GatewayCache.KeyReadsBackExactly | app/knowledge/execution.py:107-115 | a joined list reads back to the same columns exactly when no column holds the separator and it is not one empty column |
| GatewayCache.KeysTellCallersApart | app/knowledge/execution.py:107-115 | for such lists, in any order, equal cache keys mean the same source and the same columns |
| GatewayCache.SharesAKeyExactly | app/knowledge/execution.py:107-115 | a request shares its key with one for other columns if and only if its sorted columns are none or several, one empty one, or one whose text cuts at a bar into parts in order |
| JobQueue.PostgresGenerationJobQueue.Enqueue | app/knowledge/jobs.py:62-92 | adds a fresh pending row with no claims, or nothing exactly when the cluster has an open job |
| JobQueue.PostgresGenerationJobQueue.ClaimNext | app/knowledge/jobs.py:94-129 | an oldest pending row that has attempts left and is not locked ends running as of now with one more attempt, no other row changing; nothing exactly when there is none |
| JobQueue.PostgresGenerationJobQueue.ReleaseForRetry | app/knowledge/jobs.py:144-169 | that row ends pending again while attempts remain and failed as of now otherwise, with the error and its claims as they were, no other row changing; refused, changing nothing, exactly when it has attempts left and its cluster another open job |
| JobQueue.PostgresGenerationJobQueue.Finish | app/knowledge/jobs.py:187-200 | that row ends in the status and error given, as of now, with its claims and cluster as they were; no other row changes, none appears or goes, and the unique index still holds |
| JobQueue.RunKeepsInvariant | infra/postgres/knowledge/004_generation_jobs.sql:41-43 | over any interleaving, at most one open job per cluster, no job held by two workers, held jobs are running, attempts within the limit |
| JobQueue.StatusIsLastStep | app/knowledge/jobs.py:62-200 | over any interleaving, a job is as the last step that concerned it left it: queued, claimed, completed, failed, or given back with attempts left or without |
| JobQueue.HeldReleaseNeverConflicts | app/knowledge/jobs.py:144-169 | a worker releasing the job it holds never violates the unique index |
| JobQueue.PendingIsClaimable | app/knowledge/jobs.py:94-169 | in every reachable table a pending job can be claimed: none is stuck out of attempts |
| JobQueue.WorkPerJobIsBounded | app/knowledge/jobs.py:94-200 | attempts recorded are the claims made, at most three, and at most six steps ever touch a job |
| JobQueue.OrphanIsNeverReclaimed | app/knowledge/worker.py:70-77 | a running job that no live worker holds is never claimed or changed again, and its cluster is never queued again |
| JobQueue.CrashEndsRetries | app/knowledge/worker.py:70-77 | a worker's crash leaves every job it held that way |
| JobQueue.RunningJobReturnsExactly | app/knowledge/worker.py:70-77 | a running job is handed out again in some continuation if and only if a live worker holds it and it has attempts left |
| Merging.MergeLists | app/knowledge/discovery.py:558-601 | the dictionary loop computes one deduplication of both lists |
| Merging.BestIsEarliestMaximum | app/knowledge/discovery.py:558-601 | the entry kept for an identity is the earliest of its most confident proposals |
| Merging.MergeAssociative | app/knowledge/discovery.py:558-601 | merging is associative |
| Merging.BatchingDoesNotMatter | app/knowledge/discovery.py:162-179 | folding over any batching equals one deduplication of everything proposed, in order of first appearance |
| Merging.BatchedLosesNothing | app/knowledge/discovery.py:604-605 | the batches laid end to end are the list |
| Merging.BatchedIsTight | app/knowledge/discovery.py:604-605 | there are as few batches as the size allows |
| Discovery.MergeResponses | app/knowledge/discovery.py:162-179 | the discovery loop ends with each kind of proposal deduplicated once over all responses |
| Discovery.BuildSemanticModel | app/knowledge/discovery.py:187-280 | whatever is proposed, everything stored is only PROPOSED, names real tables and columns (attributes with their types, relationships at both ends), and refers to entities of the model, which have distinct ids |
| Discovery.EntitiesAreProposed | app/knowledge/discovery.py:187-220 | every stored entity is a proposal's table under its name, and every proposal about a real table has its entity |
| Discovery.AttributesAreProposed | app/knowledge/discovery.py:222-245 | every stored attribute is a proposal's column with its concept, an identifier exactly if proposed as one or a primary key; and every proposal about a real column of a stored table has one |
| Discovery.RelationshipsAreProposed | app/knowledge/discovery.py:247-280 | every stored relationship joins a proposal's two columns under its name, and every proposal whose ends are real has one |
| Discovery.RealAttributeIsKept | app/knowledge/discovery.py:222-245 | after merging, no proposal about a real column of a table with an id is lost |
| Coverage.ColumnIsCoveredExactly | app/knowledge/discovery.py:187-245 | from all proposals to the model: a real column is covered if and only if the earliest most confident proposals for its table and for it, up to case, write the table as the schema does |
| Coverage.RecasingDropsTheTable | app/knowledge/discovery.py:558-601 | proposing a real table again in another case with more confidence drops its columns |
| Discovery.UpdateEntity | app/knowledge/discovery.py:357-378 | changes status and name of that entity only, or fails exactly when there is none |
| Discovery.UpdateAttribute | app/knowledge/discovery.py:380-401 | changes status and concept of that attribute only, or fails exactly when there is none |
| Discovery.UpdateRelationship | app/knowledge/discovery.py:403-426 | changes status and name of that relationship only, or fails exactly when there is none |
| Discovery.ReconcileWithSchema | app/knowledge/discovery.py:429-515 | the loops with their stale set and index compute the reconciliation defined element by element |
| Discovery.ReconcileIsIdempotent | app/knowledge/discovery.py:429-515 | reconciling again with the same schema changes nothing |
| Discovery.ReconcilePromises | app/knowledge/discovery.py:429-515 | of what is there only statuses change, only to STALE, and rejections stay; all but rejected entities take the schema's fingerprint; every entity or attribute left confirmed has its table, column and type |
| Discovery.ConfirmedSurvivesExactly | app/knowledge/discovery.py:429-515 | a confirmed entity or attribute stays confirmed exactly when the schema still has it |
| Discovery.UntrueRelationshipExactly | app/knowledge/discovery.py:483-497 | a rescan leaves a relationship confirmed that the schema does not bear out if and only if it was confirmed, no end was found lost, and an end's table is there without the recorded column or an end is a rejected entity whose table is gone |
| Lifecycle.LifeStaysWellReferenced | app/knowledge/discovery.py:187-515 | over any run of reviews and rescans every attribute and relationship end names an entity of the model |
| Lifecycle.ConfirmedExactly | app/knowledge/discovery.py:357-515 | over any reviews and rescans of a freshly built model: confirmed if and only if the last review approved it and no rescan since has broken it, rejected if and only if the last review rejected it. A rescan breaks an entity whose table is gone, an attribute whose column is gone or retyped, and a relationship with an end whose entity is missing, or not rejected by then and without its table |
| Lifecycle.RescanLeavesConfirmedTrue | app/knowledge/discovery.py:429-515 | right after a rescan, whatever came before, confirmed entities and attributes are true of the schema; a confirmed relationship is true of it if and only if neither end is a table without the column of the join, or a rejected entity without its table |
| Lifecycle.LostColumnsAreMissed | app/knowledge/discovery.py:483-497 | an input: a join approved over real columns stays confirmed after both tables have lost them |
| Lifecycle.RejectedEndIsMissed | app/knowledge/discovery.py:451-497 | an input: an approved join stays confirmed after one of its entities was rejected and that entity's table is gone |
| Rounding.NormalizeKeepsValue | app/agent/grounding.py:240-251 | normalizing keeps the value and leaves no trailing zero |
| Rounding.NormalDecimalsAreNeeded | app/agent/grounding.py:185-186 | a normalized value with more than p decimals is no multiple of 10^-p, so its exponent is the precision it needs |
| Rounding.QuantizeIsNearest | app/agent/grounding.py:181-187 | rounding half up gives the value in whose half-open unit interval the original lies, with its sign |
| Rounding.NearestIsQuantized | app/agent/grounding.py:181-187 | and no other value is in that position |
| Grounding.Validate | app/agent/grounding.py:64-154 | accepts exactly when rows and claims go together, every citation is borne out and every prose numeral is accepted; else names what is wrong, with the first citation at fault |
| Grounding.SpelledReads | app/agent/grounding.py:240-251 | a written number is read as its amount: its digits, separators aside, scaled by its decimals, negative after a minus only, whatever currency sign or blanks are around it |
| Grounding.OnlySpelledReads | app/agent/grounding.py:240-251 | and nothing else is read as a number |
| Grounding.NumeralAcceptedExactly | app/agent/grounding.py:124-153 | a numeral is let through if and only if its amount is a number of the result, the rounding of one with more decimals to the places written, the row count in count wording, or a rank within the rows in rank wording |
| Grounding.AcceptedAnswerIsGrounded | app/agent/grounding.py:64-154 | the two conditions of acceptance, each in both directions: every citation names a cell and equals it, and every numeral the scan finds is a written number with such an amount |
| Grounding.RoundedWithinHalf | app/agent/grounding.py:162-187 | a figure let through as a rounding is within half a unit of its last written place |
| Grounding.RoundingAcceptedExactly | app/agent/grounding.py:162-187 | a written decimal passes as a rounding exactly when a supported number with more decimals lies in its half-open interval, with its sign unless it is a zero |
| Grounding.NumbersCompareByValue | app/agent/grounding.py:230-251 | cited numbers are compared by amount, however either is written |
| Grounding.OthersCompareAsTheyAre | app/agent/grounding.py:230-237 | any other citation holds exactly when texts are equal, or a text is what the value is shown as, or both are nothing, or a truth value is itself or one or zero |
| ResultBounds.BoundedRows | app/data/result_bounds.py:8-31 | the longest prefix whose JSON array fits, its exact byte count, the truncation flag, and the error exactly when the first row alone does not fit |
| ResultBounds.Execute | app/data/postgres.py:344-389 | the rows are the longest prefix of what was asked for within both limits; truncated says exactly that bytes cut them, and a cut at the maximum number of rows goes unreported exactly when there are more rows and the first ones fit |
| ResultBounds.CutGoesUnreported | app/security/sql_validation.py:308-321 | the smallest such input, two rows and a maximum of one: what is executed returns other rows than were asked for and is not called truncated |
| Conversations.BoundedPayload | app/knowledge/conversations.py:138-176 | the halving loop stores the most generous preview that fits, and the last resort if none does |
| Conversations.StoredFitsOrIsLastResort | app/knowledge/conversations.py:138-176 | what is stored fits the cap and differs from the payload only in keeping a flagged prefix of at most 200 rows, unless no preview fits |
| Conversations.StoredExceedsCapExactly | app/knowledge/conversations.py:166-176 | the cap is exceeded exactly when not even the columns alone fit |
| Conversations.PreviewsExactly | app/knowledge/conversations.py:138-176 | the previews tried, in order: at most 200 rows, the halvings, no rows; and the last resort: the columns if there are any, no rows, flagged |
| Conversations.HalvingsExactly | app/knowledge/conversations.py:156-165 | the halvings keep a half of the rows, a quarter and so on, and end with one |
| Conversations.SmallPayloadIsKept | app/knowledge/conversations.py:138-155 | a payload that fits is stored as it is exactly when it has no more than 200 rows |
| Conversations.BoundingTwiceIsOnce | app/knowledge/conversations.py:138-176 | bounding what was stored changes nothing |
| Conversations.InMemoryConversationStore.AppendTurn | app/knowledge/conversations.py:241-273 | the whole new store: the question and the bounded answer at the end of that transcript, numbered on, nothing else touched |
| Conversations.InMemoryConversationStore.ReadConversation | app/api/conversation_routes.py:101-144 | only the owner reads; the page is the last messages before `before`, and `has_more` is true exactly when an older one exists |
| Conversations.RunKeepsTranscript | app/knowledge/conversations.py:241-273 | over every run a transcript is numbered 0 to n-1 with questions and answers alternating |
| Conversations.TranscriptIsItsTurns | app/knowledge/conversations.py:241-300 | a transcript is what it was followed by its own turns, whatever other calls came between |
| Conversations.LimitRespectedExactly | app/knowledge/conversations.py:233-239 | a limit below one is not a limit: exactly when it is respected anyway |
| Conversations.PagingReadsEverything | app/api/conversation_routes.py:105-143 | for any requested limit, while anyone goes on writing between the requests: following `before` ends, every page but the oldest is full, and the pages are the transcript as it was at the first request, each message once and in order |

## Left out

- GatewayCache.DataSourceRuntimeProvider.ContextFor: the lock is not modelled, each call is one atomic step; columns that differ only by a repeated one count as different.
- JobQueue.PostgresGenerationJobQueue.ClaimNext: other transactions appear only as a set of locked rows; statements are atomic steps on a table kept as a map.
- Evaluation.Compare: the texts that explain a verdict are not modelled.
- Discovery.BuildSemanticModel: descriptions, confidences and reason codes of what is stored are not modelled.
- EntityLookup.LooseLookupsAreLiteral: both sides are lower-cased by the database first, which is taken to leave the escapes alone; the text of the statements and the quoting of identifiers are not modelled.
- WorkflowLookups.ClarifiedTurnLooksUpExactly: reading the schema catalogue for authorization is not an event; lookups, executions and metric queries are.
- Workflow.OnlyAuthorizedMetricsAreQueried: what the metric provider itself sends to the database is not modelled.
- Decimals: contexts of 28 digits, NaN and Infinity.
- Python's order-insensitive dictionary equality, and `True == 1`, when a matched row is removed from a list.
- Approving learned knowledge, query examples and business rules; guidance stores.
- Derived titles, listing, lookup by thread and creation times of conversations: short filters.
- Ownership of a conversation beyond who may read, rename or archive it; a stale copy passed to an append replaces the stored record, as in the source.
- Unicode digits and blanks in numerals; regular expressions and case folding beyond being functions of text.
- A negative cache limit; a limit of zero is modelled.
- Charts, provenance, latencies, question memory, execution evidence and semantic retrieval in the workflow.
- HTTP routes other than the paging arithmetic, database drivers, identity and policy services, SQL parsing, embeddings, configuration, command line: adapters around foreign code.
- Authorization filters, chart selection and error classes: short filters that would only add easy members.
