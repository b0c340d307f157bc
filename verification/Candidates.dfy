/**
 * Candidate review: proposals waiting for a person, and the promotion of a metric proposal into the
 * registry of certified metrics once it has been validated against that registry.
 */
module Candidates {
  import opened Wrappers
  import opened StringOrder
  import opened Dependencies
  import opened Expressions

  datatype MetricStatus = ProposedMetric | Certified | RejectedMetric | Deprecated | StaleMetric

  datatype Metric = Metric(
    status: MetricStatus,
    dimensions: seq<string>,
    dependencies: set<string>,
    semanticExpression: Option<string>,
    sourceCandidate: Option<nat>)

  /** Keyed by data source and metric key, so one data source cannot reach another's metrics. */
  type Registry = map<(string, string), Metric>

  datatype CandidateType =
    | MetricType | QueryExampleType | BusinessRuleType | FilterType
    | SynonymType | EntityAliasType | JoinRuleType | DescriptionType

  datatype CandidateStatus = Proposed | Approved | Rejected | Stale

  datatype Proposal =
    | MetricProposal(metricKey: string, displayName: string, expression: Node, dimensions: seq<string>)
    | OtherProposal(kind: CandidateType, displayName: string)

  function KindOf(p: Proposal): CandidateType {
    if p.MetricProposal? then MetricType else p.kind
  }

  datatype Candidate = Candidate(
    id: nat,
    source: string,
    kind: CandidateType,
    fingerprint: string,
    displayName: string,
    proposal: Proposal,
    status: CandidateStatus,
    version: nat,
    rejectionReason: Option<string>,
    reviewedBy: Option<string>,
    promotedTo: Option<string>)

  datatype ReviewError =
    | NoSuchCandidate
    | RejectedCandidate
    | NotAMetric
    | InvalidExpression(error: ExpressionError)
    | DimensionNotShared(dimension: string, dependency: string)

  /** The candidate store, in the insertion order of its dictionary, and the metric registry. */
  datatype State = State(registry: Registry, store: seq<Candidate>)

  // ---------------------------------------------------------------------------------------------
  // The candidate store

  function Slot(c: Candidate): (string, CandidateType, string) {
    (c.source, c.kind, c.fingerprint)
  }

  predicate UniqueSlots(store: seq<Candidate>) {
    forall i, j :: 0 <= i < j < |store| ==> Slot(store[i]) != Slot(store[j])
  }

  /** Where the first candidate of this data source with this id is, or the length of the store. */
  function IndexById(store: seq<Candidate>, source: string, id: nat): (i: nat)
    ensures i <= |store|
    ensures i < |store| ==> store[i].source == source && store[i].id == id
    ensures forall j :: 0 <= j < i ==> store[j].source != source || store[j].id != id
  {
    if store == [] || (store[0].source == source && store[0].id == id) then 0
    else 1 + IndexById(store[1..], source, id)
  }

  function IndexBySlot(store: seq<Candidate>, slot: (string, CandidateType, string)): (i: nat)
    ensures i <= |store|
    ensures i < |store| ==> Slot(store[i]) == slot
    ensures forall j :: 0 <= j < i ==> Slot(store[j]) != slot
  {
    if store == [] || Slot(store[0]) == slot then 0 else 1 + IndexBySlot(store[1..], slot)
  }

  predicate Holds(store: seq<Candidate>, source: string, id: nat) {
    exists i :: 0 <= i < |store| && store[i].source == source && store[i].id == id
  }

  /** Nothing is added, dropped or moved, and only the first candidate with this id may have changed. */
  ghost predicate OnlyOneWritten(before: seq<Candidate>, after: seq<Candidate>, source: string, id: nat) {
    && |after| == |before|
    && (forall j :: 0 <= j < |before| ==>
          Slot(after[j]) == Slot(before[j]) && after[j].id == before[j].id
          && (j != IndexById(before, source, id) ==> after[j] == before[j]))
  }

  function Upsert(store: seq<Candidate>, c: Candidate): (r: seq<Candidate>)
    ensures UniqueSlots(store) ==> UniqueSlots(r)
  {
    var i := IndexBySlot(store, Slot(c));
    if i < |store| then store[i := c] else store + [c]
  }

  /** With unique slots, a candidate is written back where it was found. */
  lemma {:induction false} UpsertInPlace(store: seq<Candidate>, i: nat, c: Candidate)
    requires i < |store| && UniqueSlots(store) && Slot(c) == Slot(store[i])
    ensures Upsert(store, c) == store[i := c]
  {
    assert IndexBySlot(store, Slot(c)) <= i;
  }

  // ---------------------------------------------------------------------------------------------
  // The registry

  /** The dependency graph of one data source's certified metrics. */
  function CertifiedGraph(registry: Registry, source: string): Graph {
    map k | k in registry && k.0 == source && registry[k].status.Certified? :: k.1 := registry[k].dependencies
  }

  function DimensionsOf(registry: Registry, source: string, key: string): set<string> {
    if (source, key) in registry then set d | d in registry[(source, key)].dimensions else {}
  }

  ghost predicate SafeIn(registry: Registry, source: string) {
    var g := CertifiedGraph(registry, source);
    ClosedUnder(g, g.Keys) && Acyclic(g)
  }

  /** In every data source, certified metrics depend on certified metrics only, and never in a cycle. */
  ghost predicate Safe(registry: Registry) {
    forall source :: SafeIn(registry, source)
  }

  // ---------------------------------------------------------------------------------------------
  // Review

  function Promoted(proposal: Proposal, id: nat): Metric
    requires proposal.MetricProposal?
  {
    Metric(Certified, proposal.dimensions, ReferencedMetrics(proposal.expression),
           Some(Describe(proposal.expression)), Some(id))
  }

  /** A certified dependency that cannot be grouped by the dimension. */
  predicate Lacks(registry: Registry, source: string, dependency: string, dimension: string) {
    dependency in CertifiedGraph(registry, source) && dimension !in DimensionsOf(registry, source, dependency)
  }

  function FirstLacking(registry: Registry, source: string, dependencies: seq<string>, dimension: string):
    (r: Option<string>)
    ensures r.None? <==> forall d :: d in dependencies ==> !Lacks(registry, source, d, dimension)
  {
    if dependencies == [] then None
    else if Lacks(registry, source, dependencies[0], dimension) then Some(dependencies[0])
    else FirstLacking(registry, source, dependencies[1..], dimension)
  }

  /** The first offered dimension that some certified dependency lacks, and the first that lacks it. */
  function FirstUnshared(registry: Registry, source: string, dependencies: seq<string>, dimensions: seq<string>):
    (r: Option<(string, string)>)
    ensures r.None? <==> forall x, d :: x in dimensions && d in dependencies ==> !Lacks(registry, source, d, x)
  {
    if dimensions == [] then None
    else
      var lacking := FirstLacking(registry, source, dependencies, dimensions[0]);
      if lacking.Some? then Some((dimensions[0], lacking.value))
      else FirstUnshared(registry, source, dependencies, dimensions[1..])
  }

  /** `dependencies[j]` is the first that lacks the dimension. */
  ghost predicate LacksFirst(registry: Registry, source: string, dependencies: seq<string>, dimension: string, j: int) {
    && 0 <= j < |dependencies| && Lacks(registry, source, dependencies[j], dimension)
    && forall k :: 0 <= k < j ==> !Lacks(registry, source, dependencies[k], dimension)
  }

  /** `dimensions[i]` is the first that some dependency lacks, and `dependencies[j]` the first that lacks it. */
  ghost predicate UnsharedAt(
    registry: Registry, source: string, dependencies: seq<string>, dimensions: seq<string>, i: int, j: int)
  {
    && 0 <= i < |dimensions| && LacksFirst(registry, source, dependencies, dimensions[i], j)
    && forall k, d :: 0 <= k < i && d in dependencies ==> !Lacks(registry, source, d, dimensions[k])
  }

  lemma {:induction false} FirstLackingIsFirst(
    registry: Registry, source: string, dependencies: seq<string>, dimension: string) returns (j: nat)
    requires FirstLacking(registry, source, dependencies, dimension).Some?
    ensures LacksFirst(registry, source, dependencies, dimension, j)
    ensures FirstLacking(registry, source, dependencies, dimension) == Some(dependencies[j])
  {
    hide Lacks;
    if Lacks(registry, source, dependencies[0], dimension) {
      j := 0;
    } else {
      var k := FirstLackingIsFirst(registry, source, dependencies[1..], dimension);
      j := k + 1;
    }
  }

  /** The pair named is the first of the dimensions, in order, and for it the first of the dependencies. */
  lemma {:induction false} FirstUnsharedIsFirst(
    registry: Registry, source: string, dependencies: seq<string>, dimensions: seq<string>) returns (i: nat, j: nat)
    requires FirstUnshared(registry, source, dependencies, dimensions).Some?
    ensures UnsharedAt(registry, source, dependencies, dimensions, i, j)
    ensures FirstUnshared(registry, source, dependencies, dimensions) == Some((dimensions[i], dependencies[j]))
  {
    hide Lacks;
    if FirstLacking(registry, source, dependencies, dimensions[0]).Some? {
      i := 0;
      j := FirstLackingIsFirst(registry, source, dependencies, dimensions[0]);
    } else {
      var k;
      k, j := FirstUnsharedIsFirst(registry, source, dependencies, dimensions[1..]);
      i := k + 1;
    }
  }

  /** What the registry as it is now has against a proposal, if anything. */
  ghost function Refusal(registry: Registry, source: string, proposal: Proposal): Option<ReviewError>
    requires proposal.MetricProposal?
  {
    var g := CertifiedGraph(registry, source);
    var valid := ValidateExpression(proposal.expression, g.Keys, Some(proposal.metricKey));
    var dependencies := ReferencedMetrics(proposal.expression);
    if valid.Err? then Some(InvalidExpression(valid.error))
    else if CycleReachableFrom(ProposedGraph(g, proposal.metricKey, proposal.expression), proposal.metricKey) then
      Some(InvalidExpression(CircularDependency))
    else
      var unshared := FirstUnshared(registry, source, SortedSet(dependencies), proposal.dimensions);
      if unshared.Some? then Some(DimensionNotShared(unshared.value.0, unshared.value.1)) else None
  }

  ghost function Approve(s: State, source: string, id: nat, reviewer: Option<string>): (State, Result<Metric, ReviewError>) {
    var i := IndexById(s.store, source, id);
    if i == |s.store| then (s, Err(NoSuchCandidate))
    else
      var c := s.store[i];
      if c.status == Rejected then (s, Err(RejectedCandidate))
      else if !c.proposal.MetricProposal? then (s, Err(NotAMetric))
      else
        var refusal := Refusal(s.registry, source, c.proposal);
        if refusal.Some? then (s, Err(refusal.value))
        else
          var metric := Promoted(c.proposal, c.id);
          (State(
             s.registry[(source, c.proposal.metricKey) := metric],
             Upsert(s.store, c.(status := Approved, reviewedBy := reviewer, promotedTo := Some(c.proposal.metricKey)))),
           Ok(metric))
  }

  /** Which verdict an approval ends in, by what it finds. */
  ghost predicate ApprovalVerdict(s: State, source: string, id: nat, r: Result<Metric, ReviewError>) {
    if !Holds(s.store, source, id) then r == Err(NoSuchCandidate)
    else
      var was := s.store[IndexById(s.store, source, id)];
      if was.status == Rejected then r == Err(RejectedCandidate)
      else if !was.proposal.MetricProposal? then r == Err(NotAMetric)
      else
        var refusal := Refusal(s.registry, source, was.proposal);
        if refusal.Some? then r == Err(refusal.value) else r.Ok?
  }

  /** The candidate found ends approved by this reviewer and pointing at its metric; nothing else of it changes. */
  ghost predicate CandidateApproved(
    before: seq<Candidate>, after: seq<Candidate>, source: string, id: nat, reviewer: Option<string>)
  {
    var i := IndexById(before, source, id);
    && i < |before| == |after|
    && var was, now := before[i], after[i];
    && was.proposal.MetricProposal?
    && now.status == Approved && now.reviewedBy == reviewer && now.promotedTo == Some(was.proposal.metricKey)
    && (now.proposal, now.displayName, now.version, now.rejectionReason)
       == (was.proposal, was.displayName, was.version, was.rejectionReason)
  }

  /** The registry gains or replaces one entry: the candidate's definition, certified and traced to it. */
  ghost predicate MetricCertified(before: Registry, after: Registry, source: string, c: Candidate, m: Metric) {
    && c.proposal.MetricProposal?
    && var key := (source, c.proposal.metricKey);
    && after.Keys == before.Keys + {key} && after[key] == m
    && (forall k :: k in after && k != key ==> after[k] == before[k])
    && m.status == Certified && m.sourceCandidate == Some(c.id)
    && m.dimensions == c.proposal.dimensions
    && m.dependencies == ReferencedMetrics(c.proposal.expression)
    && m.semanticExpression == Some(Describe(c.proposal.expression))
  }

  /** What approving means, in terms of what it finds and what it leaves. */
  lemma {:induction false} ApproveExactly(s: State, source: string, id: nat, reviewer: Option<string>)
    requires UniqueSlots(s.store)
    ensures var (after, r) := Approve(s, source, id, reviewer);
      && ApprovalVerdict(s, source, id, r)
      && UniqueSlots(after.store)
      && (r.Err? ==> after == s)
      && (r.Ok? ==>
            && OnlyOneWritten(s.store, after.store, source, id)
            && CandidateApproved(s.store, after.store, source, id, reviewer)
            && MetricCertified(s.registry, after.registry, source, s.store[IndexById(s.store, source, id)], r.value))
  {
    hide Refusal, UniqueSlots, Upsert;
    var i := IndexById(s.store, source, id);
    if i < |s.store| && s.store[i].proposal.MetricProposal? {
      UpsertInPlace(s.store, i, s.store[i].(
        status := Approved, reviewedBy := reviewer, promotedTo := Some(s.store[i].proposal.metricKey)));
    }
  }

  function Reject(s: State, source: string, id: nat, reason: string, reviewer: Option<string>): State {
    var i := IndexById(s.store, source, id);
    if i == |s.store| then s
    else s.(store := Upsert(s.store,
      s.store[i].(status := Rejected, rejectionReason := Some(reason), reviewedBy := reviewer)))
  }

  /** An edit is a new proposal: it reopens the candidate, whatever its status was. */
  function Edit(s: State, source: string, id: nat, proposal: Proposal, reviewer: Option<string>): State {
    var i := IndexById(s.store, source, id);
    if i == |s.store| then s
    else s.(store := Upsert(s.store,
      s.store[i].(proposal := proposal, displayName := proposal.displayName, status := Proposed,
                  version := s.store[i].version + 1, reviewedBy := reviewer)))
  }

  /** Whether any candidate, of any type, already stands for this pattern. */
  predicate Represented(store: seq<Candidate>, source: string, fingerprint: string) {
    exists i :: 0 <= i < |store| && store[i].source == source && store[i].fingerprint == fingerprint
  }

  /** One generation call for a cluster: the model's payload, and whether its run left evidence. */
  function Generate(
    s: State, source: string, fingerprint: string, payload: Option<Proposal>, evidence: bool, id: nat): State
  {
    var keys := CertifiedGraph(s.registry, source).Keys;
    if Represented(s.store, source, fingerprint) || payload.None? then s
    else
      var p := payload.value;
      if p.MetricProposal?
         && (p.metricKey in keys || ValidateExpression(p.expression, keys, Some(p.metricKey)).Err?) then s
      else if KindOf(p) == QueryExampleType && !evidence then s
      else s.(store := Upsert(s.store,
        Candidate(id, source, KindOf(p), fingerprint, p.displayName, p, Proposed, 1, None, None, None)))
  }

  /** What may become a candidate: a new and valid metric, an example with evidence, or any other idea. */
  predicate Proposable(s: State, source: string, p: Proposal, evidence: bool) {
    match p
    case MetricProposal(key, _, expression, _) =>
      var keys := CertifiedGraph(s.registry, source).Keys;
      key !in keys && ValidateExpression(expression, keys, Some(key)).Ok?
    case OtherProposal(kind, _) => kind == QueryExampleType ==> evidence
  }

  /**
   * A generation call adds one candidate, as proposed and in its first version, exactly when the pattern
   * has none of any type and the model's payload is proposable; otherwise it changes nothing.
   */
  lemma {:induction false} GenerateExactly(
    s: State, source: string, fingerprint: string, payload: Option<Proposal>, evidence: bool, id: nat)
    ensures var after := Generate(s, source, fingerprint, payload, evidence, id);
      && after.registry == s.registry
      && if (forall c :: c in s.store ==> c.source != source || c.fingerprint != fingerprint)
            && payload.Some? && Proposable(s, source, payload.value, evidence)
         then
           && |after.store| == |s.store| + 1 && after.store[..|s.store|] == s.store
           && var c := after.store[|s.store|];
           && (c.id, c.source, c.fingerprint, c.proposal) == (id, source, fingerprint, payload.value)
           && c.kind == KindOf(payload.value) && c.displayName == payload.value.displayName
           && c.status == Proposed && c.version == 1
           && c.rejectionReason.None? && c.reviewedBy.None? && c.promotedTo.None?
         else after.store == s.store
  {
    hide CertifiedGraph, ValidateExpression;
    assert Represented(s.store, source, fingerprint) <==>
      !(forall c :: c in s.store ==> c.source != source || c.fingerprint != fingerprint);
    if !Represented(s.store, source, fingerprint) && payload.Some? {
      var slot := (source, KindOf(payload.value), fingerprint);
      assert IndexBySlot(s.store, slot) == |s.store|;
    }
  }

  class CandidateReview {
    var registry: Registry
    var store: seq<Candidate>

    /** The store is a dictionary keyed by slot. */
    predicate Valid()
      reads this
    {
      UniqueSlots(store)
    }

    constructor (registry: Registry)
      ensures Valid() && this.registry == registry && store == []
    {
      this.registry := registry;
      this.store := [];
    }

    function Now(): State
      reads this
    {
      State(registry, store)
    }

    /** Refuses a derived metric a dimension one of its inputs cannot be grouped by. */
    method AssertDimensionsAreShared(source: string, proposal: Proposal, dependencies: seq<string>)
      returns (unshared: Option<(string, string)>)
      requires proposal.MetricProposal?
      ensures unshared == FirstUnshared(registry, source, dependencies, proposal.dimensions)
      ensures unshared.None? <==>
        forall x, d :: x in proposal.dimensions && d in dependencies && d in CertifiedGraph(registry, source) ==>
          x in DimensionsOf(registry, source, d)
      ensures unshared.Some? ==> exists i, j ::
        UnsharedAt(registry, source, dependencies, proposal.dimensions, i, j)
        && unshared == Some((proposal.dimensions[i], dependencies[j]))
    {
      assert forall x, d :: Lacks(registry, source, d, x) <==>
        d in CertifiedGraph(registry, source) && x !in DimensionsOf(registry, source, d);
      hide Lacks, UnsharedAt;
      if FirstUnshared(registry, source, dependencies, proposal.dimensions).Some? {
        ghost var i, j := FirstUnsharedIsFirst(registry, source, dependencies, proposal.dimensions);
      }
      if proposal.dimensions == [] {
        return None;
      }
      for i := 0 to |proposal.dimensions|
        invariant FirstUnshared(registry, source, dependencies, proposal.dimensions)
               == FirstUnshared(registry, source, dependencies, proposal.dimensions[i..])
      {
        var dimension := proposal.dimensions[i];
        for j := 0 to |dependencies|
          invariant FirstLacking(registry, source, dependencies, dimension)
                 == FirstLacking(registry, source, dependencies[j..], dimension)
        {
          if Lacks(registry, source, dependencies[j], dimension) {
            return Some((dimension, dependencies[j]));
          }
        }
      }
      return None;
    }

    method ApproveMetric(source: string, id: nat, reviewer: Option<string>)
      returns (r: Result<Metric, ReviewError>)
      requires Valid()
      modifies this
      ensures Valid() && (Now(), r) == Approve(old(Now()), source, id, reviewer)
      ensures ApprovalVerdict(old(Now()), source, id, r)
      ensures r.Err? ==> Now() == old(Now())
      ensures r.Ok? ==>
        OnlyOneWritten(old(store), store, source, id)
        && CandidateApproved(old(store), store, source, id, reviewer)
        && MetricCertified(old(registry), registry, source, old(store)[IndexById(old(store), source, id)], r.value)
    {
      ApproveExactly(Now(), source, id, reviewer);
      hide ApprovalVerdict, CandidateApproved, MetricCertified, OnlyOneWritten, UniqueSlots, Upsert, CertifiedGraph,
        DimensionsOf, Lacks, UnsharedAt, Holds, Promoted, CycleReachableFrom, Depth, ReferencedMetrics;
      var i := IndexById(store, source, id);
      if i == |store| {
        return Err(NoSuchCandidate);
      }
      var candidate := store[i];
      if candidate.status == Rejected {
        return Err(RejectedCandidate);
      }
      var proposal := candidate.proposal;
      if !proposal.MetricProposal? {
        return Err(NotAMetric);
      }
      var dependenciesOf := CertifiedGraph(registry, source);
      var valid := ValidateExpression(proposal.expression, dependenciesOf.Keys, Some(proposal.metricKey));
      if valid.Err? {
        return Err(InvalidExpression(valid.error));
      }
      var acyclic, _ := AssertAcyclic(proposal.metricKey, proposal.expression, dependenciesOf);
      if !acyclic {
        return Err(InvalidExpression(CircularDependency));
      }
      var dependencies := SortedSet(ReferencedMetrics(proposal.expression));
      var unshared := AssertDimensionsAreShared(source, proposal, dependencies);
      if unshared.Some? {
        return Err(DimensionNotShared(unshared.value.0, unshared.value.1));
      }
      var metric := Promoted(proposal, candidate.id);
      registry := registry[(source, proposal.metricKey) := metric];
      store := Upsert(store,
        candidate.(status := Approved, reviewedBy := reviewer, promotedTo := Some(proposal.metricKey)));
      return Ok(metric);
    }

    method RejectCandidate(source: string, id: nat, reason: string, reviewer: Option<string>) returns (ok: bool)
      requires Valid()
      modifies this
      ensures Valid() && Now() == Reject(old(Now()), source, id, reason, reviewer)
      ensures ok <==> Holds(old(store), source, id)
      ensures registry == old(registry) && OnlyOneWritten(old(store), store, source, id)
      ensures ok ==>
        var i := IndexById(old(store), source, id);
        var was, now := old(store)[i], store[i];
        && now.status == Rejected && now.rejectionReason == Some(reason) && now.reviewedBy == reviewer
        && (now.proposal, now.displayName, now.version, now.promotedTo)
           == (was.proposal, was.displayName, was.version, was.promotedTo)
    {
      var i := IndexById(store, source, id);
      if i == |store| {
        return false;
      }
      UpsertInPlace(store, i,
        store[i].(status := Rejected, rejectionReason := Some(reason), reviewedBy := reviewer));
      store := Upsert(store,
        store[i].(status := Rejected, rejectionReason := Some(reason), reviewedBy := reviewer));
      return true;
    }

    method EditCandidate(source: string, id: nat, proposal: Proposal, reviewer: Option<string>) returns (ok: bool)
      requires Valid()
      modifies this
      ensures Valid() && Now() == Edit(old(Now()), source, id, proposal, reviewer)
      ensures ok <==> Holds(old(store), source, id)
      ensures registry == old(registry) && OnlyOneWritten(old(store), store, source, id)
      ensures ok ==>
        var i := IndexById(old(store), source, id);
        var was, now := old(store)[i], store[i];
        && now.proposal == proposal && now.displayName == proposal.displayName
        && now.status == Proposed && now.version == was.version + 1 && now.reviewedBy == reviewer
        && (now.rejectionReason, now.promotedTo) == (was.rejectionReason, was.promotedTo)
    {
      var i := IndexById(store, source, id);
      if i == |store| {
        return false;
      }
      var edited := store[i].(proposal := proposal, displayName := proposal.displayName);
      edited := edited.(status := Proposed, version := edited.version + 1, reviewedBy := reviewer);
      UpsertInPlace(store, i, edited);
      store := Upsert(store, edited);
      return true;
    }
  }

  // ---------------------------------------------------------------------------------------------
  // Every run of the review keeps the registry safe

  datatype Action =
    | GenerateFor(source: string, fingerprint: string, payload: Option<Proposal>, evidence: bool, newId: nat)
    | ApproveMetric(source: string, id: nat, reviewer: Option<string>)
    | RejectCandidate(source: string, id: nat, reason: string, reviewer: Option<string>)
    | EditCandidate(source: string, id: nat, proposal: Proposal, reviewer: Option<string>)

  ghost function Apply(s: State, a: Action): State {
    match a
    case GenerateFor(source, fingerprint, payload, evidence, id) => Generate(s, source, fingerprint, payload, evidence, id)
    case ApproveMetric(source, id, reviewer) => Approve(s, source, id, reviewer).0
    case RejectCandidate(source, id, reason, reviewer) => Reject(s, source, id, reason, reviewer)
    case EditCandidate(source, id, proposal, reviewer) => Edit(s, source, id, proposal, reviewer)
  }

  ghost function Run(s: State, actions: seq<Action>): State
    decreases |actions|
  {
    if actions == [] then s else Run(Apply(s, actions[0]), actions[1..])
  }

  lemma {:induction false} CertifiedAt(registry: Registry, source: string, key: string)
    ensures key in CertifiedGraph(registry, source) <==>
      (source, key) in registry && registry[(source, key)].status.Certified?
    ensures key in CertifiedGraph(registry, source) ==>
      CertifiedGraph(registry, source)[key] == registry[(source, key)].dependencies
  {
  }

  lemma {:induction false} PromotionAt(
    registry: Registry, source: string, key: string, metric: Metric, other: string, k: string)
    requires metric.status.Certified?
    ensures var after := registry[(source, key) := metric];
      var g, h := CertifiedGraph(registry, other), CertifiedGraph(after, other);
      if other == source && k == key then k in h && h[k] == metric.dependencies
      else (k in h <==> k in g) && (k in h ==> h[k] == g[k])
  {
    CertifiedAt(registry, other, k);
    CertifiedAt(registry[(source, key) := metric], other, k);
    hide CertifiedGraph;
  }

  /** A registry that differs at one key gives a graph that differs at that key. */
  lemma {:induction false} PromotionGraph(registry: Registry, source: string, key: string, metric: Metric, other: string)
    requires metric.status.Certified?
    ensures CertifiedGraph(registry[(source, key) := metric], other)
         == if other == source then CertifiedGraph(registry, source)[key := metric.dependencies]
            else CertifiedGraph(registry, other)
  {
    hide CertifiedGraph;
    var g, h := CertifiedGraph(registry, other), CertifiedGraph(registry[(source, key) := metric], other);
    forall k
      ensures if other == source && k == key then k in h && h[k] == metric.dependencies
        else (k in h <==> k in g) && (k in h ==> h[k] == g[k])
    {
      PromotionAt(registry, source, key, metric, other, k);
    }
    assert h == if other == source then g[key := metric.dependencies] else g;
  }

  lemma {:induction false} PromotionGraphs(registry: Registry, source: string, key: string, metric: Metric)
    requires metric.status.Certified?
    ensures var after := registry[(source, key) := metric];
      && CertifiedGraph(after, source) == CertifiedGraph(registry, source)[key := metric.dependencies]
      && forall other :: other != source ==> CertifiedGraph(after, other) == CertifiedGraph(registry, other)
  {
    hide CertifiedGraph;
    PromotionGraph(registry, source, key, metric, source);
    forall other | other != source
      ensures CertifiedGraph(registry[(source, key) := metric], other) == CertifiedGraph(registry, other)
    {
      PromotionGraph(registry, source, key, metric, other);
    }
  }

  /** Certifying a proposal that nothing is held against keeps the whole registry safe. */
  lemma {:induction false} PromotionKeepsSafe(registry: Registry, source: string, proposal: Proposal, id: nat)
    requires Safe(registry) && proposal.MetricProposal? && Refusal(registry, source, proposal).None?
    ensures Safe(registry[(source, proposal.metricKey) := Promoted(proposal, id)])
  {
    var metric := Promoted(proposal, id);
    var after := registry[(source, proposal.metricKey) := metric];
    var g := CertifiedGraph(registry, source);
    PromotionGraphs(registry, source, proposal.metricKey, metric);
    assert SafeIn(registry, source);
    RefusedExactlyWhenCyclic(g, proposal.metricKey, proposal.expression);
    forall other ensures SafeIn(after, other) {
      assert SafeIn(registry, other);
    }
  }

  lemma {:induction false} ApplyKeepsSafe(s: State, a: Action)
    requires Safe(s.registry)
    ensures Safe(Apply(s, a).registry)
  {
    if a.ApproveMetric? && Approve(s, a.source, a.id, a.reviewer).1.Ok? {
      var c := s.store[IndexById(s.store, a.source, a.id)];
      PromotionKeepsSafe(s.registry, a.source, c.proposal, c.id);
    }
  }

  /** Whatever is generated, approved, rejected or edited, and in whatever order. */
  lemma {:induction false} RunKeepsSafe(s: State, actions: seq<Action>)
    requires Safe(s.registry)
    ensures Safe(Run(s, actions).registry)
    decreases |actions|
  {
    if actions != [] {
      ApplyKeepsSafe(s, actions[0]);
      RunKeepsSafe(Apply(s, actions[0]), actions[1..]);
    }
  }

  /** The cycle check refuses exactly the definitions that would leave a cycle somewhere. */
  lemma {:induction false} CycleRefusalIsExact(registry: Registry, source: string, proposal: Proposal, id: nat)
    requires Safe(registry) && proposal.MetricProposal?
    requires ValidateExpression(proposal.expression, CertifiedGraph(registry, source).Keys, Some(proposal.metricKey)).Ok?
    ensures Refusal(registry, source, proposal) == Some(InvalidExpression(CircularDependency))
       <==> !Safe(registry[(source, proposal.metricKey) := Promoted(proposal, id)])
    ensures proposal.metricKey !in CertifiedGraph(registry, source) ==>
      Refusal(registry, source, proposal) != Some(InvalidExpression(CircularDependency))
  {
    var g := CertifiedGraph(registry, source);
    var after := registry[(source, proposal.metricKey) := Promoted(proposal, id)];
    assert SafeIn(registry, source);
    PromotionGraphs(registry, source, proposal.metricKey, Promoted(proposal, id));
    RefusedExactlyWhenCyclic(g, proposal.metricKey, proposal.expression);
    if Refusal(registry, source, proposal) == Some(InvalidExpression(CircularDependency)) {
      assert !SafeIn(after, source);
    } else {
      forall other ensures SafeIn(after, other) {
        assert SafeIn(registry, other);
      }
    }
    if proposal.metricKey !in g {
      FreshKeyNeverRefused(g, proposal.metricKey, proposal.expression);
    }
  }

  // ---------------------------------------------------------------------------------------------
  // Dimensions

  /** Each certified metric offers only dimensions that every one of its dependencies offers. */
  ghost predicate SharedIn(registry: Registry, source: string) {
    var g := CertifiedGraph(registry, source);
    forall k, d :: k in g && d in g[k] ==>
      DimensionsOf(registry, source, k) <= DimensionsOf(registry, source, d)
  }

  ghost predicate Shared(registry: Registry) {
    forall source :: SharedIn(registry, source)
  }

  /** Then it can be grouped by that dimension all the way down to the governed results. */
  lemma {:induction false} SharedAlongPath(registry: Registry, source: string, p: seq<string>, k: string, d: string)
    requires Safe(registry) && Shared(registry) && k in CertifiedGraph(registry, source)
    requires PathBetween(CertifiedGraph(registry, source), p, k, d)
    ensures DimensionsOf(registry, source, k) <= DimensionsOf(registry, source, d)
    decreases |p|
  {
    var g := CertifiedGraph(registry, source);
    assert SafeIn(registry, source) && SharedIn(registry, source);
    PathSplits(g, p, k, d);
    if |p| > 1 {
      assert p[1] in g[k];
      SharedAlongPath(registry, source, p[1..], p[1], d);
    }
  }

  lemma {:induction false} SharedTransitively(registry: Registry, source: string, k: string, d: string)
    requires Safe(registry) && Shared(registry) && k in CertifiedGraph(registry, source)
    requires Reaches(CertifiedGraph(registry, source), k, d)
    ensures DimensionsOf(registry, source, k) <= DimensionsOf(registry, source, d)
  {
    var p :| PathBetween(CertifiedGraph(registry, source), p, k, d);
    SharedAlongPath(registry, source, p, k, d);
  }

  /** What a caller can check before approving: the metrics built on this key keep their dimensions. */
  ghost predicate DependentsKeepDimensions(registry: Registry, source: string, proposal: Proposal)
    requires proposal.MetricProposal?
  {
    var g := CertifiedGraph(registry, source);
    forall k :: k in g && k != proposal.metricKey && proposal.metricKey in g[k] ==>
      DimensionsOf(registry, source, k) <= set d | d in proposal.dimensions
  }

  lemma {:induction false} DimensionsAfter(registry: Registry, source: string, proposal: Proposal, id: nat, other: string, k: string)
    requires proposal.MetricProposal?
    ensures DimensionsOf(registry[(source, proposal.metricKey) := Promoted(proposal, id)], other, k)
         == if other == source && k == proposal.metricKey then set d | d in proposal.dimensions
            else DimensionsOf(registry, other, k)
  {
  }

  lemma {:induction false} PromotionShares(registry: Registry, source: string, proposal: Proposal, id: nat)
    requires Shared(registry)
    requires proposal.MetricProposal? && Refusal(registry, source, proposal).None?
    requires DependentsKeepDimensions(registry, source, proposal)
    ensures Shared(registry[(source, proposal.metricKey) := Promoted(proposal, id)])
  {
    var key := proposal.metricKey;
    var after := registry[(source, key) := Promoted(proposal, id)];
    PromotionGraphs(registry, source, key, Promoted(proposal, id));
    forall other, k, d | k in CertifiedGraph(after, other) && d in CertifiedGraph(after, other)[k]
      ensures DimensionsOf(after, other, k) <= DimensionsOf(after, other, d)
    {
      assert SharedIn(registry, other);
      if other == source && k == key {
        OfferedDimensions(registry, source, proposal, d);
      }
      hide CertifiedGraph, Refusal;
      DimensionsAfter(registry, source, proposal, id, other, k);
      DimensionsAfter(registry, source, proposal, id, other, d);
      if other != source || k != key {
        assert k in CertifiedGraph(registry, other) && d in CertifiedGraph(registry, other)[k];
      }
    }
    forall other ensures SharedIn(after, other) {
    }
  }

  /** An approval keeps dimensions shared exactly when the dependents of its key still fit. */
  lemma {:induction false} PromotionSharesExactly(registry: Registry, source: string, proposal: Proposal, id: nat)
    requires Shared(registry)
    requires proposal.MetricProposal? && Refusal(registry, source, proposal).None?
    ensures Shared(registry[(source, proposal.metricKey) := Promoted(proposal, id)])
       <==> DependentsKeepDimensions(registry, source, proposal)
  {
    var key := proposal.metricKey;
    var after := registry[(source, key) := Promoted(proposal, id)];
    if DependentsKeepDimensions(registry, source, proposal) {
      PromotionShares(registry, source, proposal, id);
    } else {
      PromotionGraphs(registry, source, key, Promoted(proposal, id));
      hide CertifiedGraph, Refusal;
      var g := CertifiedGraph(registry, source);
      var k :| k in g && k != key && key in g[k]
        && !(DimensionsOf(registry, source, k) <= set d | d in proposal.dimensions);
      var h := CertifiedGraph(after, source);
      assert k in h && key in h[k];
      assert DimensionsOf(after, source, k) == DimensionsOf(registry, source, k);
      assert DimensionsOf(after, source, key) == set d | d in proposal.dimensions;
      assert !SharedIn(after, source);
    }
  }

  lemma {:induction false} OfferedDimensions(registry: Registry, source: string, proposal: Proposal, d: string)
    requires proposal.MetricProposal? && Refusal(registry, source, proposal).None?
    requires d in ReferencedMetrics(proposal.expression)
    ensures (set x | x in proposal.dimensions) <= DimensionsOf(registry, source, d)
    ensures d != proposal.metricKey
  {
    forall x | x in proposal.dimensions ensures x in DimensionsOf(registry, source, d) {
      assert !Lacks(registry, source, d, x);
    }
  }

  function Base(dimensions: seq<string>, dependencies: set<string>): Metric {
    Metric(Certified, dimensions, dependencies, None, None)
  }

  /** One metric "pay" by department, one metric "cost" built on it, and one ungrouped metric "all". */
  function SmallRegistry(): Registry {
    map[("db", "pay") := Base(["department"], {}),
        ("db", "cost") := Base(["department"], {"pay"}),
        ("db", "all") := Base([], {})]
  }

  lemma {:induction false} SmallRegistryIsSafe()
    ensures Safe(SmallRegistry()) && Shared(SmallRegistry())
  {
    var r := SmallRegistry();
    forall source ensures SafeIn(r, source) && SharedIn(r, source) {
      var g := CertifiedGraph(r, source);
      assert forall k, d :: k in g && d in g[k] ==> source == "db" && k == "cost" && d == "pay";
      forall k ensures !StrictlyReaches(g, k, k) {
        if StrictlyReaches(g, k, k) {
          var d :| d in Successors(g, k) && Reaches(g, d, k);
          assert k == "cost" && d == "pay" && k != d;
          ReachesSplits(g, d, k);
        }
      }
      forall k | k in g ensures Successors(g, k) <= g.Keys {
        CertifiedAt(r, source, "pay");
      }
    }
  }

  /** Redefining "pay" as the ungrouped metric is accepted. */
  function Narrowed(): Proposal {
    MetricProposal("pay", "Pay", MetricRef("all"), [])
  }

  lemma {:induction false} NarrowingIsAccepted()
    ensures Refusal(SmallRegistry(), "db", Narrowed()).None?
  {
    var g := CertifiedGraph(SmallRegistry(), "db");
    CertifiedAt(SmallRegistry(), "db", "all");
    var h := ProposedGraph(g, "pay", MetricRef("all"));
    assert h["pay"] == {"all"} && h["all"] == {};
    if CycleReachableFrom(h, "pay") {
      var c :| Reaches(h, "pay", c) && StrictlyReaches(h, c, c);
      var d :| d in Successors(h, c) && Reaches(h, d, c);
      ClosedSetHoldsWhatItReaches(h, "pay", c, {"pay", "all"});
      ClosedSetHoldsWhatItReaches(h, d, c, {"all"});
    }
  }

  /** A new key is proposed over a pattern, and the proposal then edited into another. */
  function ProposeThenEdit(draft: Proposal, proposal: Proposal): seq<Action> {
    [GenerateFor("db", "f", Some(draft), false, 0), EditCandidate("db", 0, proposal, None)]
  }

  function Edited(proposal: Proposal): Candidate {
    Candidate(0, "db", MetricType, "f", proposal.displayName, proposal, Proposed, 2, None, None, None)
  }

  /** Nothing is checked on an edit, so it can name a key that is already certified. */
  lemma {:induction false} EditReachesAnyKey(registry: Registry, draft: Proposal, proposal: Proposal)
    requires draft.MetricProposal? && draft.metricKey !in CertifiedGraph(registry, "db")
    requires ValidateExpression(draft.expression, CertifiedGraph(registry, "db").Keys, Some(draft.metricKey)).Ok?
    ensures Run(State(registry, []), ProposeThenEdit(draft, proposal)) == State(registry, [Edited(proposal)])
  {
    hide CertifiedGraph, ValidateExpression;
    var actions := ProposeThenEdit(draft, proposal);
    var generated := Candidate(0, "db", MetricType, "f", draft.displayName, draft, Proposed, 1, None, None, None);
    var s := Apply(State(registry, []), actions[0]);
    assert s == State(registry, [generated]);
    UpsertInPlace(s.store, 0, Edited(proposal));
    assert Apply(s, actions[1]) == State(registry, [Edited(proposal)]);
    RunOfTwo(State(registry, []), actions);
  }

  lemma {:induction false} RunOfTwo(s: State, actions: seq<Action>)
    requires |actions| == 2
    ensures Run(s, actions) == Apply(Apply(s, actions[0]), actions[1])
  {
    hide Apply;
    var next := Apply(s, actions[0]);
    assert Run(next, actions[1..]) == Run(Apply(next, actions[1]), []);
  }

  lemma {:induction false} RunSplits(s: State, first: seq<Action>, rest: seq<Action>)
    ensures Run(s, first + rest) == Run(Run(s, first), rest)
    decreases |first|
  {
    hide Apply;
    if first == [] {
      assert first + rest == rest;
    } else {
      assert (first + rest)[1..] == first[1..] + rest;
      RunSplits(Apply(s, first[0]), first[1..], rest);
    }
  }

  lemma {:induction false} ApprovalOfEdited(registry: Registry, proposal: Proposal)
    requires proposal.MetricProposal? && Refusal(registry, "db", proposal).None?
    ensures Run(State(registry, [Edited(proposal)]), [ApproveMetric("db", 0, None)]).registry
         == registry[("db", proposal.metricKey) := Promoted(proposal, 0)]
  {
    hide Refusal, Promoted;
    var s, a := State(registry, [Edited(proposal)]), ApproveMetric("db", 0, None);
    assert IndexById(s.store, "db", 0) == 0;
    assert Apply(s, a).registry == registry[("db", proposal.metricKey) := Promoted(proposal, 0)];
    assert [a][1..] == [];
  }

  function OverAll(): Proposal {
    MetricProposal("new", "New", MetricRef("all"), [])
  }

  /** Generate a metric under a new key, edit it to redefine "pay", and approve it. */
  function OverwritingPay(): seq<Action> {
    ProposeThenEdit(OverAll(), Narrowed()) + [ApproveMetric("db", 0, None)]
  }

  /** Overwriting a key others are built on can take away a dimension they still offer. */
  lemma {:induction false} OverwriteCanUnshare()
    ensures Safe(SmallRegistry()) && Shared(SmallRegistry())
    ensures !Shared(Run(State(SmallRegistry(), []), OverwritingPay()).registry)
  {
    hide CertifiedGraph, Refusal, Shared, Safe, Run;
    var r := SmallRegistry();
    SmallRegistryIsSafe();
    NarrowingIsAccepted();
    NewMetricIsProposed();
    RunSplits(State(r, []), ProposeThenEdit(OverAll(), Narrowed()), [ApproveMetric("db", 0, None)]);
    ApprovalOfEdited(r, Narrowed());
    DependentLosesDimension();
    PromotionSharesExactly(r, "db", Narrowed(), 0);
  }

  lemma {:induction false} NewMetricIsProposed()
    ensures Run(State(SmallRegistry(), []), ProposeThenEdit(OverAll(), Narrowed()))
         == State(SmallRegistry(), [Edited(Narrowed())])
  {
    var r := SmallRegistry();
    CertifiedAt(r, "db", "new");
    CertifiedAt(r, "db", "all");
    hide CertifiedGraph;
    assert ReferencedMetrics(OverAll().expression) == {"all"} && Depth(OverAll().expression) == 1;
    EditReachesAnyKey(r, OverAll(), Narrowed());
  }

  lemma {:induction false} DependentLosesDimension()
    ensures !DependentsKeepDimensions(SmallRegistry(), "db", Narrowed())
  {
    var r := SmallRegistry();
    CertifiedAt(r, "db", "cost");
    hide CertifiedGraph;
    assert "department" in DimensionsOf(r, "db", "cost");
  }

  /** Every approval of the run is of a key that no certified metric held at that moment. */
  ghost predicate ApprovesFreshKeys(s: State, actions: seq<Action>)
    decreases |actions|
  {
    actions != [] ==>
      && (var a := actions[0];
          a.ApproveMetric? && Approve(s, a.source, a.id, a.reviewer).1.Ok? ==>
            s.store[IndexById(s.store, a.source, a.id)].proposal.metricKey !in CertifiedGraph(s.registry, a.source))
      && ApprovesFreshKeys(Apply(s, actions[0]), actions[1..])
  }

  lemma {:induction false} FreshStepKeepsShared(s: State, a: Action)
    requires Safe(s.registry) && Shared(s.registry) && ApprovesFreshKeys(s, [a])
    ensures Shared(Apply(s, a).registry)
  {
    hide SafeIn, SharedIn, Refusal, CertifiedGraph, DependentsKeepDimensions, Shared;
    if a.ApproveMetric? && Approve(s, a.source, a.id, a.reviewer).1.Ok? {
      var c := s.store[IndexById(s.store, a.source, a.id)];
      FreshKeyHasNoDependents(s.registry, a.source, c.proposal);
      PromotionSharesExactly(s.registry, a.source, c.proposal, c.id);
    }
  }

  lemma {:induction false} FreshKeyHasNoDependents(registry: Registry, source: string, proposal: Proposal)
    requires Safe(registry) && proposal.MetricProposal? && proposal.metricKey !in CertifiedGraph(registry, source)
    ensures DependentsKeepDimensions(registry, source, proposal)
  {
    assert SafeIn(registry, source);
    hide CertifiedGraph, Acyclic;
  }

  lemma {:induction false} FreshRunKeepsShared(s: State, actions: seq<Action>)
    requires Safe(s.registry) && Shared(s.registry) && ApprovesFreshKeys(s, actions)
    ensures Safe(Run(s, actions).registry) && Shared(Run(s, actions).registry)
    decreases |actions|
  {
    hide Safe, Shared, Apply, Approve;
    if actions != [] {
      assert ApprovesFreshKeys(s, [actions[0]]);
      ApplyKeepsSafe(s, actions[0]);
      FreshStepKeepsShared(s, actions[0]);
      FreshRunKeepsShared(Apply(s, actions[0]), actions[1..]);
    }
  }

  function At(registry: Registry, key: (string, string)): Option<Metric> {
    if key in registry then Some(registry[key]) else None
  }

  /** The action approves an unrejected candidate that nothing is held against, and `m` is its definition. */
  ghost predicate Certifies(s: State, a: Action, key: (string, string), m: Metric) {
    && a.ApproveMetric?
    && var i := IndexById(s.store, a.source, a.id);
    && i < |s.store|
    && s.store[i].status != Rejected && s.store[i].proposal.MetricProposal?
    && Refusal(s.registry, a.source, s.store[i].proposal).None?
    && key == (a.source, s.store[i].proposal.metricKey)
    && m == Promoted(s.store[i].proposal, s.store[i].id)
  }

  lemma {:induction false} StepCertifies(s: State, a: Action, key: (string, string))
    requires At(Apply(s, a).registry, key) != At(s.registry, key)
    ensures key in Apply(s, a).registry && Certifies(s, a, key, Apply(s, a).registry[key])
  {
    hide Refusal, Promoted, Upsert;
  }

  /**
   * The registry holds nothing the run began without unless some action of the run approved exactly
   * that definition, against the registry and candidate as they stood at that moment.
   */
  lemma {:induction false} CertifiedOnlyByApproval(s: State, actions: seq<Action>, key: (string, string))
    returns (k: nat)
    requires At(Run(s, actions).registry, key) != At(s.registry, key)
    ensures key in Run(s, actions).registry && k < |actions|
    ensures Certifies(Run(s, actions[..k]), actions[k], key, Run(s, actions).registry[key])
    decreases |actions|
  {
    hide Apply, Certifies;
    var next := Apply(s, actions[0]);
    if At(Run(next, actions[1..]).registry, key) == At(next.registry, key) {
      StepCertifies(s, actions[0], key);
      k := 0;
    } else {
      var later := CertifiedOnlyByApproval(next, actions[1..], key);
      k := later + 1;
      assert actions[..k][1..] == actions[1..][..later];
    }
  }

  /** The definitions of some certified metrics, each with the dependencies it was certified with. */
  ghost predicate Defines(registry: Registry, source: string, definitions: map<string, Node>) {
    forall k :: k in definitions ==>
      k in CertifiedGraph(registry, source)
      && ReferencedMetrics(definitions[k]) == CertifiedGraph(registry, source)[k]
  }

  /**
   * After every run from a safe registry, certified metrics can be evaluated: one consistent value
   * for each, which computing dependencies first gives and which is that of its substituted tree.
   */
  lemma {:induction false} CertifiedMetricsEvaluate(
    s: State, actions: seq<Action>, source: string, definitions: map<string, Node>, base: Measures)
    returns (ds: seq<Definition>)
    requires Safe(s.registry) && Defines(Run(s, actions).registry, source, definitions)
    ensures Orders(ds, definitions)
    ensures Consistent(ComputeInOrder(ds, base), definitions, base)
    ensures forall values :: Consistent(values, definitions, base) ==> ComputedFrom(values, Flatten(ds), base)
  {
    RunKeepsSafe(s, actions);
    var registry := Run(s, actions).registry;
    assert SafeIn(registry, source);
    hide CertifiedGraph, Acyclic, ClosedUnder, Consistent, Orders, ComputedFrom, Run, ReferencedMetrics;
    ds := OneEvaluation(CertifiedGraph(registry, source), definitions, base);
  }

  /** The stored text is enough to tell which definition was approved. */
  lemma {:induction false} StoredTextIdentifiesDefinition(a: Proposal, b: Proposal, i: nat, j: nat)
    requires a.MetricProposal? && b.MetricProposal? && PlainKeys(a.expression) && PlainKeys(b.expression)
    requires Promoted(a, i).semanticExpression == Promoted(b, j).semanticExpression
    ensures a.expression == b.expression && Promoted(a, i).dependencies == Promoted(b, j).dependencies
  {
    DescribeIsInjective(a.expression, b.expression);
  }

  // ---------------------------------------------------------------------------------------------
  // Suppression

  /** At most one candidate, of whatever type, per pattern of a data source. */
  ghost predicate OnePerPattern(store: seq<Candidate>) {
    forall i, j :: 0 <= i < j < |store| ==>
      store[i].source != store[j].source || store[i].fingerprint != store[j].fingerprint
  }

  /** Ids, patterns and types never change, and nothing ever leaves the store. */
  ghost predicate Extends(before: seq<Candidate>, after: seq<Candidate>) {
    && |before| <= |after|
    && forall i :: 0 <= i < |before| ==> Slot(after[i]) == Slot(before[i]) && after[i].id == before[i].id
  }

  /** Every action writes one candidate of the store back under its own slot, or adds one, or nothing. */
  lemma {:induction false} ReviewWritesInPlace(s: State, a: Action)
    requires OnePerPattern(s.store) && !a.GenerateFor?
    ensures var i, after := IndexById(s.store, a.source, a.id), Apply(s, a).store;
      if i == |s.store| then after == s.store
      else
        && |after| == |s.store| && after == s.store[i := after[i]]
        && Slot(after[i]) == Slot(s.store[i]) && after[i].id == s.store[i].id
  {
    var i := IndexById(s.store, a.source, a.id);
    if i < |s.store| {
      assert UniqueSlots(s.store);
      forall c | Slot(c) == Slot(s.store[i]) ensures Upsert(s.store, c) == s.store[i := c] {
        UpsertInPlace(s.store, i, c);
      }
      hide OnePerPattern, Upsert, Refusal, IndexById;
      var c := s.store[i];
      match a
      case ApproveMetric(source, id, reviewer) =>
        if Approve(s, source, id, reviewer).1.Ok? {
          c := c.(status := Approved, reviewedBy := reviewer, promotedTo := Some(c.proposal.metricKey));
        } else {
          assert s.store == s.store[i := c];
        }
      case RejectCandidate(_, _, reason, reviewer) =>
        c := c.(status := Rejected, rejectionReason := Some(reason), reviewedBy := reviewer);
      case EditCandidate(_, _, proposal, reviewer) =>
        c := c.(proposal := proposal, displayName := proposal.displayName, status := Proposed,
                version := c.version + 1, reviewedBy := reviewer);
      assert Slot(c) == Slot(s.store[i]) && c.id == s.store[i].id;
      assert Apply(s, a).store == s.store[i := c];
    }
  }

  lemma {:induction false} GenerateAppends(s: State, a: Action)
    requires a.GenerateFor?
    ensures var n, after := |s.store|, Apply(s, a).store;
      after == s.store
      || (&& !Represented(s.store, a.source, a.fingerprint)
          && |after| == n + 1 && after == s.store + [after[n]]
          && after[n].source == a.source && after[n].fingerprint == a.fingerprint)
  {
    if !Represented(s.store, a.source, a.fingerprint) && Apply(s, a).store != s.store {
      var c := Candidate(a.newId, a.source, KindOf(a.payload.value), a.fingerprint, a.payload.value.displayName,
                         a.payload.value, Proposed, 1, None, None, None);
      var i := IndexBySlot(s.store, Slot(c));
      assert i == |s.store|;
      assert Apply(s, a).store == s.store + [c];
    }
  }

  lemma {:induction false} ApplyKeepsPatterns(s: State, a: Action)
    requires OnePerPattern(s.store)
    ensures OnePerPattern(Apply(s, a).store) && Extends(s.store, Apply(s, a).store)
  {
    hide Apply;
    if a.GenerateFor? {
      GenerateAppends(s, a);
    } else {
      ReviewWritesInPlace(s, a);
    }
  }

  /** A pattern once represented stays so: a rejected idea is not proposed again. */
  lemma {:induction false} RunKeepsPatterns(s: State, actions: seq<Action>)
    requires OnePerPattern(s.store)
    ensures OnePerPattern(Run(s, actions).store) && Extends(s.store, Run(s, actions).store)
    decreases |actions|
  {
    if actions != [] {
      ApplyKeepsPatterns(s, actions[0]);
      RunKeepsPatterns(Apply(s, actions[0]), actions[1..]);
    }
  }

  /** Only an edit reopens a rejected candidate; until then no approval of it can succeed. */
  lemma {:induction false} RejectedUntilEdited(s: State, actions: seq<Action>, i: nat)
    requires OnePerPattern(s.store) && i < |s.store| && s.store[i].status == Rejected
    requires IndexById(s.store, s.store[i].source, s.store[i].id) == i
    requires forall a :: a in actions && a.EditCandidate? ==> a.source != s.store[i].source || a.id != s.store[i].id
    ensures i < |Run(s, actions).store| && Run(s, actions).store[i].status == Rejected
    ensures forall reviewer ::
      Approve(Run(s, actions), s.store[i].source, s.store[i].id, reviewer).1 == Err(RejectedCandidate)
    decreases |actions|
  {
    if actions != [] {
      var next := Apply(s, actions[0]);
      ApplyKeepsPatterns(s, actions[0]);
      RejectedStep(s, actions[0], i);
      assert IndexById(next.store, s.store[i].source, s.store[i].id) == i by {
        var j := IndexById(next.store, s.store[i].source, s.store[i].id);
        assert j <= i;
        assert Slot(next.store[j]) == Slot(s.store[j]) && next.store[j].id == s.store[j].id;
      }
      RejectedUntilEdited(next, actions[1..], i);
    }
  }

  lemma {:induction false} RejectedStep(s: State, a: Action, i: nat)
    requires OnePerPattern(s.store) && i < |s.store| && s.store[i].status == Rejected
    requires IndexById(s.store, s.store[i].source, s.store[i].id) == i
    requires a.EditCandidate? ==> a.source != s.store[i].source || a.id != s.store[i].id
    ensures i < |Apply(s, a).store| && Apply(s, a).store[i].status == Rejected
  {
    if a.GenerateFor? {
      GenerateAppends(s, a);
    } else if IndexById(s.store, a.source, a.id) == i {
      if a.RejectCandidate? {
        UpsertInPlace(s.store, i,
          s.store[i].(status := Rejected, rejectionReason := Some(a.reason), reviewedBy := a.reviewer));
      }
    } else {
      hide Apply;
      ReviewWritesInPlace(s, a);
    }
  }

  // ---------------------------------------------------------------------------------------------
  // What a candidate's status says

  /** The action is a review of candidate `i` that takes effect: an approval only if it succeeds. */
  ghost predicate Reviews(s: State, a: Action, i: nat) {
    && !a.GenerateFor? && i < |s.store| && IndexById(s.store, a.source, a.id) == i
    && (a.ApproveMetric? ==> Approve(s, a.source, a.id, a.reviewer).1.Ok?)
  }

  /** What each kind of review leaves a candidate as, and who it names. */
  ghost predicate Decided(a: Action, c: Candidate)
    requires !a.GenerateFor?
  {
    && c.reviewedBy == a.reviewer
    && match a
       case ApproveMetric(_, _, _) =>
         c.status == Approved && c.proposal.MetricProposal? && c.promotedTo == Some(c.proposal.metricKey)
       case RejectCandidate(_, _, reason, _) => c.status == Rejected && c.rejectionReason == Some(reason)
       case EditCandidate(_, _, proposal, _) => c.status == Proposed && c.proposal == proposal
  }

  lemma {:induction false} ReviewDecides(s: State, a: Action, i: nat)
    requires OnePerPattern(s.store) && Reviews(s, a, i)
    ensures i < |Apply(s, a).store| && Decided(a, Apply(s, a).store[i])
  {
    assert UniqueSlots(s.store);
    if a.ApproveMetric? {
      ApproveExactly(s, a.source, a.id, a.reviewer);
      hide Approve;
    } else {
      hide OnePerPattern, Upsert;
      forall c | Slot(c) == Slot(s.store[i]) ensures Upsert(s.store, c) == s.store[i := c] {
        UpsertInPlace(s.store, i, c);
      }
    }
  }

  lemma {:induction false} OthersKeepStatus(s: State, a: Action, i: nat)
    requires OnePerPattern(s.store) && i < |Apply(s, a).store| && !Reviews(s, a, i)
    ensures i < |s.store| ==> Apply(s, a).store[i] == s.store[i]
    ensures i >= |s.store| ==> Apply(s, a).store[i].status == Proposed
  {
    if a.GenerateFor? {
      GenerateAppends(s, a);
      if i >= |s.store| {
        GeneratedIsProposed(s, a);
      }
    } else if a.ApproveMetric? && Approve(s, a.source, a.id, a.reviewer).1.Err? {
      ApproveExactlyUnique(s, a);
    } else {
      ReviewWritesInPlace(s, a);
    }
  }

  lemma {:induction false} ApproveExactlyUnique(s: State, a: Action)
    requires OnePerPattern(s.store) && a.ApproveMetric? && Approve(s, a.source, a.id, a.reviewer).1.Err?
    ensures Apply(s, a) == s
  {
    assert UniqueSlots(s.store);
    ApproveExactly(s, a.source, a.id, a.reviewer);
  }

  lemma {:induction false} GeneratedIsProposed(s: State, a: Action)
    requires a.GenerateFor? && |Apply(s, a).store| > |s.store|
    ensures Apply(s, a).store[|s.store|].status == Proposed
  {
    GenerateAppends(s, a);
  }

  lemma {:induction false} RunEnds(s: State, actions: seq<Action>)
    requires actions != []
    ensures Run(s, actions) == Apply(Run(s, actions[..|actions| - 1]), actions[|actions| - 1])
  {
    var init, last := actions[..|actions| - 1], actions[|actions| - 1];
    assert actions == init + [last];
    RunSplits(s, init, [last]);
    hide Apply;
    assert Run(Run(s, init), [last]) == Run(Apply(Run(s, init), last), []);
  }

  /** `actions[k]` is the last review of candidate `i` that took effect. */
  ghost predicate LastReview(s: State, actions: seq<Action>, i: nat, k: nat) {
    && k < |actions| && Reviews(Run(s, actions[..k]), actions[k], i)
    && forall j :: k < j < |actions| ==> !Reviews(Run(s, actions[..j]), actions[j], i)
  }

  ghost predicate Reviewed(s: State, actions: seq<Action>, i: nat) {
    exists k :: LastReview(s, actions, i, k)
  }

  lemma {:induction false} LastReviewStep(s: State, actions: seq<Action>, i: nat, k: nat)
    requires actions != []
    ensures var n := |actions| - 1;
      LastReview(s, actions, i, k) <==>
        if k == n then Reviews(Run(s, actions[..n]), actions[n], i)
        else LastReview(s, actions[..n], i, k) && !Reviews(Run(s, actions[..n]), actions[n], i)
  {
    hide Reviews, Run;
    var n := |actions| - 1;
    assert forall j :: 0 <= j < n ==> actions[..n][..j] == actions[..j];
  }

  /**
   * Over every run: a candidate is as the last review of it that took effect left it, with that
   * reviewer; one no review took effect on is as it was, or proposed if it is new.
   */
  lemma {:induction false} StatusIsLastReview(s: State, actions: seq<Action>, i: nat)
    requires OnePerPattern(s.store) && i < |Run(s, actions).store|
    ensures var c := Run(s, actions).store[i];
      && (forall k: nat :: LastReview(s, actions, i, k) ==> Decided(actions[k], c))
      && (!Reviewed(s, actions, i) ==> if i < |s.store| then c == s.store[i] else c.status == Proposed)
    decreases |actions|
  {
    hide Apply, Reviews, Decided;
    if actions != [] {
      var n := |actions| - 1;
      var init, last := actions[..n], actions[n];
      var before := Run(s, init);
      RunEnds(s, actions);
      RunKeepsPatterns(s, init);
      hide OnePerPattern, Extends, Run;
      forall k: nat {
        LastReviewStep(s, actions, i, k);
      }
      if Reviews(before, last, i) {
        ReviewDecides(before, last, i);
        assert LastReview(s, actions, i, n);
      } else {
        OthersKeepStatus(before, last, i);
        if Reviewed(s, init, i) {
          var k: nat :| LastReview(s, init, i, k);
          LastReviewStep(s, actions, i, k);
          assert LastReview(s, actions, i, k);
        }
        if i < |before.store| {
          StatusIsLastReview(s, init, i);
        } else {
          NotReviewedYet(s, init, i);
        }
      }
    }
  }

  lemma {:induction false} NotReviewedYet(s: State, actions: seq<Action>, i: nat)
    requires OnePerPattern(s.store) && i >= |Run(s, actions).store|
    ensures !Reviewed(s, actions, i) && i >= |s.store|
    decreases |actions|
  {
    RunKeepsPatterns(s, actions);
    if actions != [] {
      var n := |actions| - 1;
      RunEnds(s, actions);
      RunKeepsPatterns(s, actions[..n]);
      ApplyKeepsPatterns(Run(s, actions[..n]), actions[n]);
      NotReviewedYet(s, actions[..n], i);
      hide Apply, Run, OnePerPattern;
      forall k: nat {
        LastReviewStep(s, actions, i, k);
      }
    }
  }

  /** A candidate that did not begin approved is approved exactly when its last effective review was an approval. */
  lemma {:induction false} ApprovedExactly(s: State, actions: seq<Action>, i: nat)
    requires OnePerPattern(s.store) && i < |Run(s, actions).store|
    requires i < |s.store| ==> s.store[i].status != Approved
    ensures Run(s, actions).store[i].status == Approved <==>
      exists k: nat :: LastReview(s, actions, i, k) && actions[k].ApproveMetric?
  {
    StatusIsLastReview(s, actions, i);
    hide Run, LastReview, OnePerPattern;
  }
}
