/**
 * Whole lives of a semantic model: any sequence of reviews and rescans after it was built, and the
 * status each mapping has at the end.
 */
module Lifecycle {
  import opened Wrappers
  import opened Discovery

  datatype Action =
    | ReviewEntity(id: nat, approve: bool, name: Option<string>)
    | ReviewAttribute(id: nat, approve: bool, name: Option<string>)
    | ReviewRelationship(id: nat, approve: bool, name: Option<string>)
    | Rescan(snapshot: Snapshot)

  function Decision(approve: bool): ApprovalStatus {
    if approve then CONFIRMED else REJECTED
  }

  /** An action on an unknown id is an error and leaves the model as it was. */
  function Apply(fold: Fold, m: Model, a: Action): Model {
    match a
    case ReviewEntity(id, approve, name) =>
      m.(entities := ReviewedEntities(m.entities, id, Decision(approve), name))
    case ReviewAttribute(id, approve, name) =>
      m.(attributes := ReviewedAttributes(m.attributes, id, Decision(approve), name))
    case ReviewRelationship(id, approve, name) =>
      m.(relationships := ReviewedRelationships(m.relationships, id, Decision(approve), name))
    case Rescan(snapshot) => Reconciled(fold, m, snapshot)
  }

  function Life(fold: Fold, m: Model, actions: seq<Action>): Model {
    if actions == [] then m else Apply(fold, Life(fold, m, actions[..|actions| - 1]), actions[|actions| - 1])
  }

  /** Ids and the references between them are never touched. */
  ghost predicate SameReferences(m: Model, r: Model) {
    && |r.entities| == |m.entities| && |r.attributes| == |m.attributes| && |r.relationships| == |m.relationships|
    && (forall i :: 0 <= i < |m.entities| ==>
          r.entities[i].id == m.entities[i].id
          && r.entities[i].schema == m.entities[i].schema && r.entities[i].table == m.entities[i].table)
    && (forall i :: 0 <= i < |m.attributes| ==>
          && r.attributes[i].id == m.attributes[i].id && r.attributes[i].entityId == m.attributes[i].entityId
          && r.attributes[i].column == m.attributes[i].column && r.attributes[i].dataType == m.attributes[i].dataType)
    && (forall i :: 0 <= i < |m.relationships| ==>
          r.relationships[i].id == m.relationships[i].id
          && r.relationships[i].fromEntityId == m.relationships[i].fromEntityId
          && r.relationships[i].toEntityId == m.relationships[i].toEntityId)
  }

  lemma {:induction false} ApplyKeepsReferences(fold: Fold, m: Model, a: Action)
    ensures SameReferences(m, Apply(fold, m, a))
  {
    hide TableGone, AttributeBroken, EndpointsPresent, StaleIds, Renamed;
  }

  lemma {:induction false} LifeKeepsReferences(fold: Fold, m: Model, actions: seq<Action>)
    ensures SameReferences(m, Life(fold, m, actions))
  {
    if actions != [] {
      LifeKeepsReferences(fold, m, actions[..|actions| - 1]);
      ApplyKeepsReferences(fold, Life(fold, m, actions[..|actions| - 1]), actions[|actions| - 1]);
      hide Apply;
    }
  }

  /** Through any sequence of reviews and rescans, no attribute or relationship loses its entities. */
  lemma {:induction false} LifeStaysWellReferenced(fold: Fold, m: Model, actions: seq<Action>)
    requires WellReferenced(m)
    ensures WellReferenced(Life(fold, m, actions))
  {
    LifeKeepsReferences(fold, m, actions);
    hide Life;
    var r := Life(fold, m, actions);
    forall id | NamesAnEntity(m.entities, id) ensures NamesAnEntity(r.entities, id) {
      var i :| 0 <= i < |m.entities| && m.entities[i].id == id;
      assert r.entities[i].id == id;
    }
  }

  /** What one action means for one mapping. */
  datatype Mark = Approves | Rejects | Breaks | Leaves

  /** The status that a history of marks ends in: a schema change never revives or undoes a rejection. */
  function Fate(marks: seq<Mark>): ApprovalStatus {
    if marks == [] then PROPOSED
    else
      var before := Fate(marks[..|marks| - 1]);
      match marks[|marks| - 1]
      case Approves => CONFIRMED
      case Rejects => REJECTED
      case Breaks => if before == REJECTED then REJECTED else STALE
      case Leaves => before
  }

  /** Mark `k` is the one given, and nothing after it is a review or, for an approval, a breaking change. */
  ghost predicate Standing(marks: seq<Mark>, k: nat, mark: Mark) {
    && k < |marks| && marks[k] == mark
    && forall j :: k < j < |marks| ==> marks[j] == Leaves || (mark == Rejects && marks[j] == Breaks)
  }

  ghost predicate Stands(marks: seq<Mark>, mark: Mark) {
    exists k :: Standing(marks, k, mark)
  }

  lemma {:induction false} StandsStep(marks: seq<Mark>, mark: Mark)
    requires marks != []
    ensures var n := |marks| - 1;
      Stands(marks, mark) <==>
      || marks[n] == mark
      || (Stands(marks[..n], mark) && (marks[n] == Leaves || (mark == Rejects && marks[n] == Breaks)))
  {
    var n := |marks| - 1;
    if marks[n] == mark {
      assert Standing(marks, n, mark);
    } else if Stands(marks, mark) {
      var k: nat :| Standing(marks, k, mark);
      assert Standing(marks[..n], k, mark);
    } else if Stands(marks[..n], mark) && (marks[n] == Leaves || (mark == Rejects && marks[n] == Breaks)) {
      var k: nat :| Standing(marks[..n], k, mark);
      assert Standing(marks, k, mark) by {
        forall j | k < j < |marks| ensures marks[j] == Leaves || (mark == Rejects && marks[j] == Breaks) {
          assert j < n ==> marks[j] == marks[..n][j];
        }
      }
    }
  }

  /** The status is the one a standing decision gave, in both directions. */
  lemma {:induction false} FateExactly(marks: seq<Mark>)
    ensures Fate(marks) == CONFIRMED <==> Stands(marks, Approves)
    ensures Fate(marks) == REJECTED <==> Stands(marks, Rejects)
  {
    if marks != [] {
      FateExactly(marks[..|marks| - 1]);
      StandsStep(marks, Approves);
      StandsStep(marks, Rejects);
      hide Stands;
    }
  }

  // ---------------------------------------------------------------------------------------------
  // The history of one mapping

  function EntityMark(a: Action, e: Entity): Mark {
    match a
    case ReviewEntity(id, approve, _) => if id != e.id then Leaves else if approve then Approves else Rejects
    case Rescan(snapshot) => if TableGone(snapshot, e) then Breaks else Leaves
    case _ => Leaves
  }

  function EntityMarks(actions: seq<Action>, e: Entity): (marks: seq<Mark>)
    ensures |marks| == |actions| && forall j :: 0 <= j < |marks| ==> marks[j] == EntityMark(actions[j], e)
  {
    seq(|actions|, j requires 0 <= j < |actions| => EntityMark(actions[j], e))
  }

  /** Whether a schema no longer has the attribute's column, or has it with another type. */
  predicate AttributeLost(fold: Fold, snapshot: Snapshot, es: seq<Entity>, x: Attribute) {
    var column := AttributeColumn(fold, snapshot, es, x);
    column.None? || (x.dataType.Some? && fold(column.value.dataType) != fold(x.dataType.value))
  }

  function AttributeMark(fold: Fold, a: Action, es: seq<Entity>, x: Attribute): Mark {
    match a
    case ReviewAttribute(id, approve, _) => if id != x.id then Leaves else if approve then Approves else Rejects
    case Rescan(snapshot) => if AttributeLost(fold, snapshot, es, x) then Breaks else Leaves
    case _ => Leaves
  }

  function AttributeMarks(fold: Fold, actions: seq<Action>, es: seq<Entity>, x: Attribute): (marks: seq<Mark>)
    ensures |marks| == |actions| && forall j :: 0 <= j < |marks| ==> marks[j] == AttributeMark(fold, actions[j], es, x)
  {
    seq(|actions|, j requires 0 <= j < |actions| => AttributeMark(fold, actions[j], es, x))
  }

  /**
   * Whether a rescan finds a relationship's end lost: no such entity, or its table gone and the entity not
   * rejected by what came before. The column of the join is not looked at, and a rejected end is excused.
   */
  predicate EndLost(earlier: seq<Action>, snapshot: Snapshot, es: seq<Entity>, id: nat) {
    var e := ById(es, id);
    e.None? || (TableGone(snapshot, e.value) && Fate(EntityMarks(earlier, e.value)) != REJECTED)
  }

  function RelationshipMark(earlier: seq<Action>, a: Action, es: seq<Entity>, x: Relationship): Mark {
    match a
    case ReviewRelationship(id, approve, _) => if id != x.id then Leaves else if approve then Approves else Rejects
    case Rescan(snapshot) =>
      if EndLost(earlier, snapshot, es, x.fromEntityId) || EndLost(earlier, snapshot, es, x.toEntityId) then Breaks
      else Leaves
    case _ => Leaves
  }

  function RelationshipMarks(actions: seq<Action>, es: seq<Entity>, x: Relationship): (marks: seq<Mark>)
    ensures |marks| == |actions|
    ensures forall j :: 0 <= j < |marks| ==> marks[j] == RelationshipMark(actions[..j], actions[j], es, x)
  {
    seq(|actions|, j requires 0 <= j < |actions| => RelationshipMark(actions[..j], actions[j], es, x))
  }

  lemma {:induction false} EntityFate(fold: Fold, m: Model, actions: seq<Action>, i: nat)
    requires AllProposed(m) && i < |m.entities|
    ensures SameReferences(m, Life(fold, m, actions))
    ensures Life(fold, m, actions).entities[i].status == Fate(EntityMarks(actions, m.entities[i]))
  {
    LifeKeepsReferences(fold, m, actions);
    if actions != [] {
      var n := |actions| - 1;
      var e, before := m.entities[i], Life(fold, m, actions[..n]);
      EntityFate(fold, m, actions[..n], i);
      assert EntityMarks(actions, e)[..n] == EntityMarks(actions[..n], e);
      EntityStep(fold, before, actions[n], i);
      SameEntityMark(before.entities[i], e, actions[n]);
      hide Life, Apply, SameReferences, AllProposed, EntityMarks, EntityMark;
    }
  }

  lemma {:induction false} SameEntityMark(a: Entity, b: Entity, action: Action)
    requires a.id == b.id && a.schema == b.schema && a.table == b.table
    ensures EntityMark(action, a) == EntityMark(action, b)
  {
  }

  /** How a mark moves a status. */
  predicate Moves(mark: Mark, before: ApprovalStatus, after: ApprovalStatus) {
    match mark
    case Approves => after == CONFIRMED
    case Rejects => after == REJECTED
    case Breaks => after == if before == REJECTED then REJECTED else STALE
    case Leaves => after == before
  }

  lemma {:induction false} EntityStep(fold: Fold, m: Model, a: Action, i: nat)
    requires i < |m.entities|
    ensures |Apply(fold, m, a).entities| == |m.entities|
    ensures Moves(EntityMark(a, m.entities[i]), m.entities[i].status, Apply(fold, m, a).entities[i].status)
  {
    hide TableGone, ReconciledAttributes, ReconciledRelationships, StaleIds, Renamed;
  }

  // ---------------------------------------------------------------------------------------------
  // Attributes and relationships, whose fate also depends on their entities

  ghost predicate SameTables(a: seq<Entity>, b: seq<Entity>) {
    && |a| == |b|
    && forall i :: 0 <= i < |a| ==> a[i].id == b[i].id && a[i].schema == b[i].schema && a[i].table == b[i].table
  }

  lemma {:induction false} ByIdAlike(a: seq<Entity>, b: seq<Entity>, id: nat)
    requires SameTables(a, b)
    ensures ById(a, id).None? <==> ById(b, id).None?
    ensures ById(a, id).Some? ==>
      ById(a, id).value.schema == ById(b, id).value.schema && ById(a, id).value.table == ById(b, id).value.table
  {
    if a != [] && a[|a| - 1].id != id {
      ByIdAlike(a[..|a| - 1], b[..|b| - 1], id);
    }
  }

  lemma {:induction false} ByIdOfDistinct(es: seq<Entity>, k: nat)
    requires k < |es| && forall i, j :: 0 <= i < j < |es| ==> es[i].id != es[j].id
    ensures ById(es, es[k].id) == Some(es[k])
  {
    if k < |es| - 1 {
      ByIdOfDistinct(es[..|es| - 1], k);
    }
  }

  /** An id is stale at a rescan exactly when its entity's table is gone and it was not rejected. */
  lemma {:induction false} StaleExactly(m: Model, now: seq<Entity>, snapshot: Snapshot, id: nat)
    requires DistinctEntityIds(m) && SameTables(m.entities, now)
    ensures id in StaleIds(snapshot, now) <==>
      exists k :: 0 <= k < |now| && m.entities[k].id == id && ById(m.entities, id) == Some(m.entities[k])
        && TableGone(snapshot, m.entities[k]) && now[k].status != REJECTED
  {
    forall k | 0 <= k < |now|
      ensures TableGone(snapshot, now[k]) == TableGone(snapshot, m.entities[k])
      ensures ById(m.entities, m.entities[k].id) == Some(m.entities[k])
    {
      ByIdOfDistinct(m.entities, k);
    }
    hide TableGone, ById;
    if id in StaleIds(snapshot, now) {
      var k :| 0 <= k < |now| && now[k].status != REJECTED && TableGone(snapshot, now[k]) && now[k].id == id;
    }
  }

  lemma {:induction false} ReconciledSameTables(snapshot: Snapshot, es: seq<Entity>)
    ensures SameTables(es, ReconciledEntities(snapshot, es))
  {
  }

  /** A rescan breaks an attribute exactly when the schema has lost its column or changed its type. */
  lemma {:induction false} BrokenExactly(fold: Fold, m: Model, now: Model, snapshot: Snapshot, i: nat)
    requires DistinctEntityIds(m) && SameReferences(m, now) && i < |m.attributes|
    ensures AttributeBroken(fold, snapshot, ReconciledEntities(snapshot, now.entities),
                            StaleIds(snapshot, now.entities), now.attributes[i])
       <==> AttributeLost(fold, snapshot, m.entities, m.attributes[i])
  {
    var x, after := m.attributes[i], ReconciledEntities(snapshot, now.entities);
    assert SameTables(m.entities, now.entities);
    ReconciledSameTables(snapshot, now.entities);
    ByIdAlike(m.entities, after, x.entityId);
    assert AttributeColumn(fold, snapshot, after, now.attributes[i]) == AttributeColumn(fold, snapshot, m.entities, x);
    StaleExactly(m, now.entities, snapshot, x.entityId);
    assert x.entityId in StaleIds(snapshot, now.entities) ==> AttributeColumn(fold, snapshot, m.entities, x).None?;
    hide SameReferences, DistinctEntityIds, StaleIds, AttributeColumn, ById, TableGone, ReconciledEntities;
  }

  lemma {:induction false} AttributeStep(fold: Fold, m: Model, now: Model, a: Action, i: nat)
    requires DistinctEntityIds(m) && SameReferences(m, now) && i < |m.attributes|
    ensures |Apply(fold, now, a).attributes| == |m.attributes|
    ensures Moves(AttributeMark(fold, a, m.entities, m.attributes[i]), now.attributes[i].status,
                  Apply(fold, now, a).attributes[i].status)
  {
    if a.Rescan? {
      BrokenExactly(fold, m, now, a.snapshot, i);
    }
    hide AttributeBroken, AttributeLost, ReconciledEntities, ReconciledRelationships, StaleIds, Renamed,
      DistinctEntityIds, ReviewedEntities, ReviewedRelationships;
  }

  lemma {:induction false} AttributeFate(fold: Fold, m: Model, actions: seq<Action>, i: nat)
    requires AllProposed(m) && DistinctEntityIds(m) && i < |m.attributes|
    ensures SameReferences(m, Life(fold, m, actions))
    ensures Life(fold, m, actions).attributes[i].status == Fate(AttributeMarks(fold, actions, m.entities, m.attributes[i]))
  {
    LifeKeepsReferences(fold, m, actions);
    if actions != [] {
      var n := |actions| - 1;
      var x, before := m.attributes[i], Life(fold, m, actions[..n]);
      AttributeFate(fold, m, actions[..n], i);
      assert AttributeMarks(fold, actions, m.entities, x)[..n] == AttributeMarks(fold, actions[..n], m.entities, x);
      AttributeStep(fold, m, before, actions[n], i);
      hide Life, Apply, SameReferences, AllProposed, AttributeMarks, AttributeMark, DistinctEntityIds;
    }
  }

  /** A rescan breaks a relationship exactly when an entity it ends in is gone and was not rejected before. */
  lemma {:induction false} EndExactly(fold: Fold, m: Model, earlier: seq<Action>, snapshot: Snapshot, id: nat)
    requires AllProposed(m) && DistinctEntityIds(m)
    ensures var now := Life(fold, m, earlier).entities;
      ById(ReconciledEntities(snapshot, now), id).Some? && id !in StaleIds(snapshot, now)
      <==> !EndLost(earlier, snapshot, m.entities, id)
  {
    var now := Life(fold, m, earlier).entities;
    LifeKeepsReferences(fold, m, earlier);
    assert SameTables(m.entities, now);
    ReconciledSameTables(snapshot, now);
    ByIdAlike(m.entities, ReconciledEntities(snapshot, now), id);
    StaleExactly(m, now, snapshot, id);
    forall k | 0 <= k < |now| ensures now[k].status == Fate(EntityMarks(earlier, m.entities[k])) {
      EntityFate(fold, m, earlier, k);
    }
    hide Life, Fate, EntityMarks, StaleIds, TableGone, SameReferences, AllProposed, DistinctEntityIds, ReconciledEntities;
    if ById(m.entities, id).Some? {
      var e := ById(m.entities, id).value;
      var k :| 0 <= k < |m.entities| && m.entities[k] == e;
    }
  }

  lemma {:induction false} RelationshipStep(
    fold: Fold, m: Model, earlier: seq<Action>, a: Action, i: nat)
    requires AllProposed(m) && DistinctEntityIds(m) && i < |m.relationships|
    requires SameReferences(m, Life(fold, m, earlier))
    ensures var now := Life(fold, m, earlier);
      && |Apply(fold, now, a).relationships| == |m.relationships|
      && Moves(RelationshipMark(earlier, a, m.entities, m.relationships[i]), now.relationships[i].status,
               Apply(fold, now, a).relationships[i].status)
  {
    var now := Life(fold, m, earlier);
    if a.Rescan? {
      EndExactly(fold, m, earlier, a.snapshot, m.relationships[i].fromEntityId);
      EndExactly(fold, m, earlier, a.snapshot, m.relationships[i].toEntityId);
    }
    hide Life, EndLost, ById, ReconciledEntities, ReconciledAttributes, StaleIds, Renamed,
      DistinctEntityIds, AllProposed, ReviewedEntities, ReviewedAttributes;
  }

  lemma {:induction false} RelationshipFate(fold: Fold, m: Model, actions: seq<Action>, i: nat)
    requires AllProposed(m) && DistinctEntityIds(m) && i < |m.relationships|
    ensures SameReferences(m, Life(fold, m, actions))
    ensures Life(fold, m, actions).relationships[i].status
         == Fate(RelationshipMarks(actions, m.entities, m.relationships[i]))
  {
    LifeKeepsReferences(fold, m, actions);
    if actions != [] {
      var n := |actions| - 1;
      var x := m.relationships[i];
      var marks := RelationshipMarks(actions, m.entities, x);
      RelationshipFate(fold, m, actions[..n], i);
      forall j | 0 <= j < n ensures marks[j] == RelationshipMarks(actions[..n], m.entities, x)[j] {
        assert actions[..n][..j] == actions[..j];
      }
      assert marks[..n] == RelationshipMarks(actions[..n], m.entities, x);
      RelationshipStep(fold, m, actions[..n], actions[n], i);
      hide Apply, SameReferences, AllProposed, RelationshipMarks, RelationshipMark, DistinctEntityIds;
    }
  }

  /** A status that is exactly what a history of marks leaves standing. */
  ghost predicate Decided(marks: seq<Mark>, status: ApprovalStatus) {
    && (status == CONFIRMED <==> Stands(marks, Approves))
    && (status == REJECTED <==> Stands(marks, Rejects))
  }

  /**
   * Over every sequence of reviews and rescans of a freshly built model: a mapping is confirmed if
   * and only if its last review approved it and no rescan since has broken it, and it is rejected if
   * and only if its last review rejected it. A rescan breaks an entity whose table is gone, an attribute
   * whose column is gone or has another type, and a relationship one of whose ends it finds lost
   * (`EndLost`), which is less than the relationship being untrue.
   */
  lemma {:induction false} ConfirmedExactly(fold: Fold, m: Model, actions: seq<Action>)
    requires AllProposed(m) && DistinctEntityIds(m)
    ensures var r := Life(fold, m, actions);
      && SameReferences(m, r)
      && (forall i :: 0 <= i < |m.entities| ==> Decided(EntityMarks(actions, m.entities[i]), r.entities[i].status))
      && (forall i :: 0 <= i < |m.attributes| ==>
            Decided(AttributeMarks(fold, actions, m.entities, m.attributes[i]), r.attributes[i].status))
      && (forall i :: 0 <= i < |m.relationships| ==>
            Decided(RelationshipMarks(actions, m.entities, m.relationships[i]), r.relationships[i].status))
  {
    var r := Life(fold, m, actions);
    LifeKeepsReferences(fold, m, actions);
    hide Life, Fate, Stands, EntityMarks, AttributeMarks, RelationshipMarks, AllProposed, DistinctEntityIds;
    forall i | 0 <= i < |m.entities| ensures Decided(EntityMarks(actions, m.entities[i]), r.entities[i].status) {
      EntityFate(fold, m, actions, i);
      FateExactly(EntityMarks(actions, m.entities[i]));
    }
    forall i | 0 <= i < |m.attributes|
      ensures Decided(AttributeMarks(fold, actions, m.entities, m.attributes[i]), r.attributes[i].status)
    {
      AttributeFate(fold, m, actions, i);
      FateExactly(AttributeMarks(fold, actions, m.entities, m.attributes[i]));
    }
    forall i | 0 <= i < |m.relationships|
      ensures Decided(RelationshipMarks(actions, m.entities, m.relationships[i]), r.relationships[i].status)
    {
      RelationshipFate(fold, m, actions, i);
      FateExactly(RelationshipMarks(actions, m.entities, m.relationships[i]));
    }
  }

  /**
   * Right after any rescan, every confirmed entity and attribute is really there. A confirmed
   * relationship is too, unless an end's table is there without the column of the join, or an end is a
   * rejected entity whose table is gone; and then it is not.
   */
  lemma {:induction false} RescanLeavesConfirmedTrue(fold: Fold, m: Model, actions: seq<Action>, snapshot: Snapshot)
    requires WellReferenced(m)
    ensures var r := Life(fold, m, actions + [Rescan(snapshot)]);
      && ConfirmedHolds(fold, snapshot, r) && WellReferenced(r)
      && forall i :: 0 <= i < |r.relationships| && r.relationships[i].status == CONFIRMED ==>
           (JoinIsTrue(fold, snapshot, r.entities, r.relationships[i])
            <==> !JoinUnchecked(fold, snapshot, r.entities, r.relationships[i]))
  {
    var all, before := actions + [Rescan(snapshot)], Life(fold, m, actions);
    assert all[..|all| - 1] == actions;
    var r := Reconciled(fold, before, snapshot);
    assert Life(fold, m, all) == r;
    ReconcilePromises(fold, before, snapshot);
    LifeStaysWellReferenced(fold, m, all);
    forall i | 0 <= i < |r.relationships| && r.relationships[i].status == CONFIRMED
      ensures JoinIsTrue(fold, snapshot, r.entities, r.relationships[i])
         <==> !JoinUnchecked(fold, snapshot, r.entities, r.relationships[i])
    {
      ConfirmedJoin(fold, before, snapshot, i);
    }
    hide Life, Reconciled, ConfirmedHolds, WellReferenced, JoinIsTrue, JoinUnchecked;
  }

  lemma {:induction false} ConfirmedJoin(fold: Fold, m: Model, snapshot: Snapshot, i: nat)
    requires i < |m.relationships| && Reconciled(fold, m, snapshot).relationships[i].status == CONFIRMED
    ensures var r := Reconciled(fold, m, snapshot);
      JoinIsTrue(fold, snapshot, r.entities, r.relationships[i])
      <==> !JoinUnchecked(fold, snapshot, r.entities, r.relationships[i])
  {
    UntrueRelationshipExactly(fold, m, snapshot, i);
    VerdictsKept(fold, snapshot, m.entities, m.relationships[i]);
    EndpointsReconciled(snapshot, m.entities, StaleIds(snapshot, m.entities), m.relationships[i]);
    hide JoinIsTrue, JoinUnchecked, ReconciledEntities, EndpointsPresent, StaleIds;
  }

  // ---------------------------------------------------------------------------------------------
  // Confirmed joins the schema does not bear out

  /** Two tables "s.a" and "s.b" with these columns. */
  function TwoTables(left: seq<Column>, right: seq<Column>): Snapshot {
    Snapshot([Table("s", "a", left), Table("s", "b", right)], "")
  }

  function OneTable(): Snapshot {
    Snapshot([Table("s", "a", [Key])], "")
  }

  const Key := Column("k", "int", false)

  /** An entity for each table, and a join of their columns "k". */
  function Joined(): Model {
    Model("", [Entity(0, "s", "a", "A", PROPOSED, ""), Entity(1, "s", "b", "B", PROPOSED, "")], [],
          [Relationship(2, 0, 1, "k", "k", "joins", PROPOSED)])
  }

  lemma {:induction false} BothTables(left: seq<Column>, right: seq<Column>)
    ensures FindTable(TwoTables(left, right).tables, Identifier("s", "a")) == Some(Table("s", "a", left))
    ensures FindTable(TwoTables(left, right).tables, Identifier("s", "b")) == Some(Table("s", "b", right))
  {
    var tables := TwoTables(left, right).tables;
    assert Identifier("s", "a")[2] != Identifier("s", "b")[2];
    assert tables[1..] == [tables[1]];
  }

  lemma {:induction false} JoinedIsDescribed(fold: Fold)
    ensures AllProposed(Joined()) && DistinctEntityIds(Joined())
    ensures Described(fold, TwoTables([Key], [Key]), Joined())
  {
    var es, snapshot := Joined().entities, TwoTables([Key], [Key]);
    BothTables([Key], [Key]);
    assert es[0].id == 0 && es[1].id == 1;
    assert EndDescribed(fold, snapshot, es, 0, "k") && EndDescribed(fold, snapshot, es, 1, "k");
  }

  lemma {:induction false} LifeStep(fold: Fold, m: Model, actions: seq<Action>, a: Action)
    ensures Life(fold, m, actions + [a]) == Apply(fold, Life(fold, m, actions), a)
  {
    assert (actions + [a])[..|actions|] == actions;
  }

  function Approved(): Model {
    Joined().(relationships := [Relationship(2, 0, 1, "k", "k", "joins", CONFIRMED)])
  }

  lemma {:induction false} JoinIsApproved(fold: Fold)
    ensures Life(fold, Joined(), [ReviewRelationship(2, true, None)]) == Approved()
  {
    assert [ReviewRelationship(2, true, None)] == [] + [ReviewRelationship(2, true, None)];
    LifeStep(fold, Joined(), [], ReviewRelationship(2, true, None));
    hide Reconciled, ReviewedEntities, ReviewedAttributes;
  }

  lemma {:induction false} JoinWithoutColumns(fold: Fold, es: seq<Entity>, x: Relationship)
    requires es == Joined().entities && x == Approved().relationships[0]
    ensures EndpointsPresent(es, StaleIds(TwoTables([], []), es), x) && JoinUnchecked(fold, TwoTables([], []), es, x)
  {
    BothTables([], []);
    assert es[1] == Joined().entities[1] && es[..1][0] == Joined().entities[0];
    assert ById(es, 1) == Some(es[1]) && ById(es, 0) == Some(es[0]);
    hide FindTable, Identifier;
  }

  lemma {:induction false} JoinOfRejected(fold: Fold, es: seq<Entity>, x: Relationship)
    requires es == [Joined().entities[0], Joined().entities[1].(status := REJECTED)]
    requires x == Approved().relationships[0]
    ensures EndpointsPresent(es, StaleIds(OneTable(), es), x) && JoinUnchecked(fold, OneTable(), es, x)
  {
    var tables := OneTable().tables;
    assert Identifier("s", "a")[2] != Identifier("s", "b")[2];
    assert tables[1..] == [];
    assert FindTable(tables, Identifier("s", "a")).Some? && FindTable(tables, Identifier("s", "b")).None?;
    assert ById(es, 1) == Some(es[1]) && ById(es, 0) == Some(es[0]);
    hide FindTable, Identifier;
  }

  /** The approved model once its entity 1 is rejected. */
  function Rejecting(): Model {
    Approved().(entities := [Joined().entities[0], Joined().entities[1].(status := REJECTED)])
  }

  lemma {:induction false} EndIsRejected(fold: Fold)
    ensures Life(fold, Joined(), [ReviewRelationship(2, true, None), ReviewEntity(1, false, None)]) == Rejecting()
  {
    var approve, reject := ReviewRelationship(2, true, None), ReviewEntity(1, false, None);
    JoinIsApproved(fold);
    assert [approve, reject] == [approve] + [reject];
    LifeStep(fold, Joined(), [approve], reject);
    hide Life, Reconciled, ReviewedRelationships, ReviewedAttributes;
    assert Apply(fold, Approved(), reject).entities == Rejecting().entities;
  }

  lemma {:induction false} RescanMisses(fold: Fold, m: Model, snapshot: Snapshot)
    requires m.relationships == Approved().relationships
    requires EndpointsPresent(m.entities, StaleIds(snapshot, m.entities), m.relationships[0])
    requires JoinUnchecked(fold, snapshot, m.entities, m.relationships[0])
    ensures var r := Apply(fold, m, Rescan(snapshot));
      && r.relationships == Approved().relationships
      && !JoinIsTrue(fold, snapshot, r.entities, r.relationships[0])
  {
    UntrueRelationshipExactly(fold, m, snapshot, 0);
    hide JoinIsTrue, JoinUnchecked, EndpointsPresent, StaleIds, ReconciledEntities, ReconciledAttributes;
  }

  /** The join is approved, its columns disappear from both tables, and it stays confirmed. */
  lemma {:induction false} LostColumnsAreMissed(fold: Fold)
    ensures AllProposed(Joined()) && DistinctEntityIds(Joined()) && Described(fold, TwoTables([Key], [Key]), Joined())
    ensures var snapshot := TwoTables([], []);
      var r := Life(fold, Joined(), [ReviewRelationship(2, true, None), Rescan(snapshot)]);
      && r.relationships == Approved().relationships
      && !JoinIsTrue(fold, snapshot, r.entities, r.relationships[0])
  {
    var approve, snapshot := ReviewRelationship(2, true, None), TwoTables([], []);
    JoinedIsDescribed(fold);
    JoinIsApproved(fold);
    JoinWithoutColumns(fold, Approved().entities, Approved().relationships[0]);
    RescanMisses(fold, Approved(), snapshot);
    assert [approve, Rescan(snapshot)] == [approve] + [Rescan(snapshot)];
    LifeStep(fold, Joined(), [approve], Rescan(snapshot));
    hide *;
  }

  /** The join is approved, one of its entities is rejected, that entity's table disappears, and it stays confirmed. */
  lemma {:induction false} RejectedEndIsMissed(fold: Fold)
    ensures AllProposed(Joined()) && DistinctEntityIds(Joined()) && Described(fold, TwoTables([Key], [Key]), Joined())
    ensures var actions := [ReviewRelationship(2, true, None), ReviewEntity(1, false, None), Rescan(OneTable())];
      var r := Life(fold, Joined(), actions);
      && r.relationships == Approved().relationships
      && !JoinIsTrue(fold, OneTable(), r.entities, r.relationships[0])
  {
    var reviews := [ReviewRelationship(2, true, None), ReviewEntity(1, false, None)];
    JoinedIsDescribed(fold);
    EndIsRejected(fold);
    JoinOfRejected(fold, Rejecting().entities, Rejecting().relationships[0]);
    RescanMisses(fold, Rejecting(), OneTable());
    assert reviews + [Rescan(OneTable())]
        == [ReviewRelationship(2, true, None), ReviewEntity(1, false, None), Rescan(OneTable())];
    LifeStep(fold, Joined(), reviews, Rescan(OneTable()));
    hide *;
  }
}
