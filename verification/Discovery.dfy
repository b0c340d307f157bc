/**
 * The semantic model's life: built from merged proposals against a real schema, reviewed by people,
 * and re-checked whenever the schema is scanned again.
 */
module Discovery {
  import opened Wrappers
  import opened Sequences
  import opened Merging

  // ---------------------------------------------------------------------------------------------
  // Schema and proposals

  datatype Column = Column(name: string, dataType: string, isPrimaryKey: bool)

  datatype Table = Table(schema: string, name: string, columns: seq<Column>)

  datatype Snapshot = Snapshot(tables: seq<Table>, fingerprint: string)

  type Fold = string -> string

  function Identifier(schema: string, table: string): string {
    schema + "." + table
  }

  function FindTable(tables: seq<Table>, identifier: string): (t: Option<Table>)
    ensures t.Some? ==> t.value in tables && Identifier(t.value.schema, t.value.name) == identifier
    ensures t.None? ==> forall x :: x in tables ==> Identifier(x.schema, x.name) != identifier
  {
    if tables == [] then None
    else if Identifier(tables[0].schema, tables[0].name) == identifier then Some(tables[0])
    else FindTable(tables[1..], identifier)
  }

  function FindColumn(fold: Fold, columns: seq<Column>, name: string): (c: Option<Column>)
    ensures c.Some? ==> c.value in columns && fold(c.value.name) == fold(name)
    ensures c.None? ==> forall x :: x in columns ==> fold(x.name) != fold(name)
  {
    if columns == [] then None
    else if fold(columns[0].name) == fold(name) then Some(columns[0])
    else FindColumn(fold, columns[1..], name)
  }

  function ColumnIn(fold: Fold, snapshot: Snapshot, identifier: string, name: string): Option<Column> {
    var t := FindTable(snapshot.tables, identifier);
    if t.None? then None else FindColumn(fold, t.value.columns, name)
  }

  datatype EntityProposal = EntityProposal(table: string, name: string, confidence: real)

  datatype AttributeProposal =
    AttributeProposal(table: string, column: string, concept: string, isIdentifier: bool, confidence: real)

  datatype RelationshipProposal = RelationshipProposal(
    fromTable: string, fromColumn: string, toTable: string, toColumn: string, name: string, confidence: real)

  datatype Proposals = Proposals(
    entities: seq<EntityProposal>, attributes: seq<AttributeProposal>, relationships: seq<RelationshipProposal>)

  function ByTable(fold: Fold): Ranking<EntityProposal, string> {
    Ranking((p: EntityProposal) => fold(p.table), (p: EntityProposal) => p.confidence)
  }

  function ByColumn(fold: Fold): Ranking<AttributeProposal, (string, string)> {
    Ranking((p: AttributeProposal) => (fold(p.table), fold(p.column)), (p: AttributeProposal) => p.confidence)
  }

  function ByJoin(fold: Fold): Ranking<RelationshipProposal, (string, string, string, string)> {
    Ranking((p: RelationshipProposal) => (fold(p.fromTable), fold(p.fromColumn), fold(p.toTable), fold(p.toColumn)),
            (p: RelationshipProposal) => p.confidence)
  }

  function Once(fold: Fold, p: Proposals): Proposals {
    Proposals(Deduplicated(p.entities, ByTable(fold)), Deduplicated(p.attributes, ByColumn(fold)),
              Deduplicated(p.relationships, ByJoin(fold)))
  }

  function Append(left: Proposals, right: Proposals): Proposals {
    Proposals(left.entities + right.entities, left.attributes + right.attributes,
              left.relationships + right.relationships)
  }

  method MergeProposals(fold: Fold, left: Proposals, right: Proposals) returns (merged: Proposals)
    ensures merged == Once(fold, Append(left, right))
  {
    var entities := MergeLists(left.entities, right.entities, ByTable(fold));
    var attributes := MergeLists(left.attributes, right.attributes, ByColumn(fold));
    var relationships := MergeLists(left.relationships, right.relationships, ByJoin(fold));
    merged := Proposals(entities, attributes, relationships);
  }

  const Nothing := Proposals([], [], [])

  function AppendAll(responses: seq<Proposals>): Proposals {
    if responses == [] then Nothing else Append(AppendAll(responses[..|responses| - 1]), responses[|responses| - 1])
  }

  /** The discovery loop ends with one deduplication of everything proposed, whatever the batches were. */
  method MergeResponses(fold: Fold, responses: seq<Proposals>) returns (merged: Proposals)
    ensures merged == Once(fold, AppendAll(responses))
  {
    merged := Nothing;
    assert Once(fold, Nothing) == Nothing by {
      NothingTwice(fold);
    }
    for i := 0 to |responses|
      invariant merged == Once(fold, AppendAll(responses[..i]))
    {
      merged := MergeProposals(fold, merged, responses[i]);
      OnceFirst(fold, AppendAll(responses[..i]), responses[i]);
      assert responses[..i + 1][..i] == responses[..i];
    }
    assert responses[..|responses|] == responses;
  }

  lemma {:induction false} NothingTwice(fold: Fold)
    ensures Once(fold, Nothing) == Nothing
  {
    assert Deduplicated([], ByTable(fold)) == [];
    assert Deduplicated([], ByColumn(fold)) == [];
    assert Deduplicated([], ByJoin(fold)) == [];
  }

  lemma {:induction false} OnceFirst(fold: Fold, a: Proposals, b: Proposals)
    ensures Once(fold, Append(Once(fold, a), b)) == Once(fold, Append(a, b))
    ensures Once(fold, Append(a, Once(fold, b))) == Once(fold, Append(a, b))
  {
    hide Deduplicated;
    DeduplicateFirst(a.entities, b.entities, ByTable(fold));
    DeduplicateFirst(a.attributes, b.attributes, ByColumn(fold));
    DeduplicateFirst(a.relationships, b.relationships, ByJoin(fold));
  }

  // ---------------------------------------------------------------------------------------------
  // The stored model

  datatype ApprovalStatus = PROPOSED | CONFIRMED | REJECTED | STALE

  datatype Entity = Entity(
    id: nat, schema: string, table: string, name: string, status: ApprovalStatus, fingerprint: string)

  datatype Attribute = Attribute(
    id: nat, entityId: nat, column: string, concept: string, dataType: Option<string>, isIdentifier: bool,
    status: ApprovalStatus)

  datatype Relationship = Relationship(
    id: nat, fromEntityId: nat, toEntityId: nat, fromColumn: string, toColumn: string, name: string,
    status: ApprovalStatus)

  datatype Model = Model(
    fingerprint: string, entities: seq<Entity>, attributes: seq<Attribute>, relationships: seq<Relationship>)

  ghost predicate NamesAnEntity(entities: seq<Entity>, id: nat) {
    exists i :: 0 <= i < |entities| && entities[i].id == id
  }

  /** Every attribute's owner and every relationship's ends are entities of the model. */
  ghost predicate WellReferenced(m: Model) {
    && (forall i :: 0 <= i < |m.attributes| ==> NamesAnEntity(m.entities, m.attributes[i].entityId))
    && (forall i :: 0 <= i < |m.relationships| ==>
          NamesAnEntity(m.entities, m.relationships[i].fromEntityId)
          && NamesAnEntity(m.entities, m.relationships[i].toEntityId))
  }

  ghost predicate AllProposed(m: Model) {
    && (forall i :: 0 <= i < |m.entities| ==> m.entities[i].status == PROPOSED)
    && (forall i :: 0 <= i < |m.attributes| ==> m.attributes[i].status == PROPOSED)
    && (forall i :: 0 <= i < |m.relationships| ==> m.relationships[i].status == PROPOSED)
  }

  ghost predicate DistinctEntityIds(m: Model) {
    forall i, j :: 0 <= i < j < |m.entities| ==> m.entities[i].id != m.entities[j].id
  }

  /** Nothing in the model names a table or column the snapshot does not have. */
  ghost predicate Described(fold: Fold, snapshot: Snapshot, m: Model) {
    && (forall i :: 0 <= i < |m.entities| ==>
          FindTable(snapshot.tables, Identifier(m.entities[i].schema, m.entities[i].table)).Some?)
    && (forall i :: 0 <= i < |m.attributes| ==> AttributeDescribed(fold, snapshot, m.entities, m.attributes[i]))
    && (forall i :: 0 <= i < |m.relationships| ==>
          && EndDescribed(fold, snapshot, m.entities, m.relationships[i].fromEntityId, m.relationships[i].fromColumn)
          && EndDescribed(fold, snapshot, m.entities, m.relationships[i].toEntityId, m.relationships[i].toColumn))
  }

  /** The entity at one end of a relationship has the column named there. */
  ghost predicate EndDescribed(fold: Fold, snapshot: Snapshot, entities: seq<Entity>, id: nat, column: string) {
    exists e :: 0 <= e < |entities| && entities[e].id == id
      && (var c := ColumnIn(fold, snapshot, Identifier(entities[e].schema, entities[e].table), column);
          c.Some? && c.value.name == column)
  }

  /** The attribute's owner has the column, with the type recorded. */
  ghost predicate AttributeDescribed(fold: Fold, snapshot: Snapshot, entities: seq<Entity>, a: Attribute) {
    exists e :: 0 <= e < |entities| && entities[e].id == a.entityId
      && (var c := ColumnIn(fold, snapshot, Identifier(entities[e].schema, entities[e].table), a.column);
          c.Some? && a.dataType == Some(c.value.dataType))
  }

  // ---------------------------------------------------------------------------------------------
  // Building

  /** Entity ids by table identifier: as many as there are, each the id of an entity of that table. */
  ghost predicate IdsAreOurs(snapshot: Snapshot, entities: seq<Entity>, ids: map<string, nat>) {
    forall t :: t in ids ==> exists e ::
      && 0 <= e < |entities| && entities[e].id == ids[t]
      && Identifier(entities[e].schema, entities[e].table) == t
      && FindTable(snapshot.tables, t).Some?
  }

  /** One entity per proposal that names a real table, in order, numbered from `start`. */
  function BuiltEntities(snapshot: Snapshot, ps: seq<EntityProposal>, start: nat): seq<Entity> {
    if ps == [] then []
    else
      var n := |ps| - 1;
      var before := BuiltEntities(snapshot, ps[..n], start);
      var table := FindTable(snapshot.tables, ps[n].table);
      if table.None? then before
      else
        before + [Entity(start + |before|, table.value.schema, table.value.name, ps[n].name, PROPOSED,
                         snapshot.fingerprint)]
  }

  function EntityIds(snapshot: Snapshot, ps: seq<EntityProposal>, start: nat): map<string, nat> {
    if ps == [] then map[]
    else
      var n := |ps| - 1;
      var before := EntityIds(snapshot, ps[..n], start);
      if FindTable(snapshot.tables, ps[n].table).None? then before
      else before[ps[n].table := start + |BuiltEntities(snapshot, ps[..n], start)|]
  }

  function BuiltAttributes(
    fold: Fold, snapshot: Snapshot, ps: seq<AttributeProposal>, ids: map<string, nat>, start: nat): seq<Attribute>
  {
    if ps == [] then []
    else
      var n := |ps| - 1;
      var p, before := ps[n], BuiltAttributes(fold, snapshot, ps[..n], ids, start);
      var column := ColumnIn(fold, snapshot, p.table, p.column);
      if p.table !in ids || column.None? then before
      else
        before + [Attribute(start + |before|, ids[p.table], column.value.name, p.concept, Some(column.value.dataType),
                            p.isIdentifier || column.value.isPrimaryKey, PROPOSED)]
  }

  function BuiltRelationships(
    fold: Fold, snapshot: Snapshot, ps: seq<RelationshipProposal>, ids: map<string, nat>, start: nat):
    seq<Relationship>
  {
    if ps == [] then []
    else
      var n := |ps| - 1;
      var p, before := ps[n], BuiltRelationships(fold, snapshot, ps[..n], ids, start);
      var from := ColumnIn(fold, snapshot, p.fromTable, p.fromColumn);
      var to := ColumnIn(fold, snapshot, p.toTable, p.toColumn);
      if p.fromTable !in ids || p.toTable !in ids || from.None? || to.None? then before
      else
        before + [Relationship(start + |before|, ids[p.fromTable], ids[p.toTable], from.value.name, to.value.name,
                               p.name, PROPOSED)]
  }

  method BuildEntities(snapshot: Snapshot, proposals: seq<EntityProposal>, start: nat)
    returns (entities: seq<Entity>, ids: map<string, nat>)
    ensures entities == BuiltEntities(snapshot, proposals, start) && ids == EntityIds(snapshot, proposals, start)
  {
    entities, ids := [], map[];
    var next := start;
    for i := 0 to |proposals|
      invariant entities == BuiltEntities(snapshot, proposals[..i], start) && next == start + |entities|
      invariant ids == EntityIds(snapshot, proposals[..i], start)
    {
      var table := FindTable(snapshot.tables, proposals[i].table);
      assert proposals[..i + 1][..i] == proposals[..i];
      if table.Some? {
        ids := ids[proposals[i].table := next];
        entities := entities + [Entity(next, table.value.schema, table.value.name, proposals[i].name, PROPOSED,
                                       snapshot.fingerprint)];
        next := next + 1;
      }
    }
    assert proposals[..|proposals|] == proposals;
  }

  lemma {:induction false} EntitiesAreReal(snapshot: Snapshot, ps: seq<EntityProposal>, start: nat)
    ensures var entities := BuiltEntities(snapshot, ps, start);
      && IdsAreOurs(snapshot, entities, EntityIds(snapshot, ps, start))
      && forall i :: 0 <= i < |entities| ==>
           && entities[i].id == start + i && entities[i].status == PROPOSED
           && FindTable(snapshot.tables, Identifier(entities[i].schema, entities[i].table)).Some?
  {
    if ps != [] {
      var n := |ps| - 1;
      EntitiesAreReal(snapshot, ps[..n], start);
      var before, after := BuiltEntities(snapshot, ps[..n], start), BuiltEntities(snapshot, ps, start);
      if FindTable(snapshot.tables, ps[n].table).Some? {
        AddEntity(snapshot, before, EntityIds(snapshot, ps[..n], start), after[|before|]);
        assert after == before + [after[|before|]];
      }
      hide IdsAreOurs;
    }
  }

  lemma {:induction false} AddEntity(snapshot: Snapshot, entities: seq<Entity>, ids: map<string, nat>, e: Entity)
    requires IdsAreOurs(snapshot, entities, ids)
    requires FindTable(snapshot.tables, Identifier(e.schema, e.table)).Some?
    ensures IdsAreOurs(snapshot, entities + [e], ids[Identifier(e.schema, e.table) := e.id])
  {
    var after := entities + [e];
    forall t | t in ids[Identifier(e.schema, e.table) := e.id]
      ensures exists k ::
        && 0 <= k < |after| && after[k].id == ids[Identifier(e.schema, e.table) := e.id][t]
        && Identifier(after[k].schema, after[k].table) == t
        && FindTable(snapshot.tables, t).Some?
    {
      if t == Identifier(e.schema, e.table) {
        assert after[|entities|] == e;
      } else {
        var k :| 0 <= k < |entities| && entities[k].id == ids[t]
          && Identifier(entities[k].schema, entities[k].table) == t && FindTable(snapshot.tables, t).Some?;
        assert after[k] == entities[k];
      }
    }
  }

  lemma {:induction false} EntityOfId(snapshot: Snapshot, entities: seq<Entity>, ids: map<string, nat>, t: string)
    requires IdsAreOurs(snapshot, entities, ids) && t in ids
    ensures NamesAnEntity(entities, ids[t])
    ensures exists e ::
      && 0 <= e < |entities| && entities[e].id == ids[t]
      && Identifier(entities[e].schema, entities[e].table) == t
  {
  }

  method BuildAttributes(
    fold: Fold, snapshot: Snapshot, proposals: seq<AttributeProposal>, ids: map<string, nat>, start: nat)
    returns (attributes: seq<Attribute>)
    ensures attributes == BuiltAttributes(fold, snapshot, proposals, ids, start)
  {
    hide ColumnIn;
    attributes := [];
    for i := 0 to |proposals|
      invariant attributes == BuiltAttributes(fold, snapshot, proposals[..i], ids, start)
    {
      var p := proposals[i];
      var column := ColumnIn(fold, snapshot, p.table, p.column);
      assert proposals[..i + 1][..i] == proposals[..i];
      if p.table in ids && column.Some? {
        attributes := attributes
          + [Attribute(start + |attributes|, ids[p.table], column.value.name, p.concept, Some(column.value.dataType),
                       p.isIdentifier || column.value.isPrimaryKey, PROPOSED)];
      }
    }
    assert proposals[..|proposals|] == proposals;
  }

  lemma {:induction false} AttributesAreReal(
    fold: Fold, snapshot: Snapshot, ps: seq<AttributeProposal>, entities: seq<Entity>, ids: map<string, nat>, start: nat)
    requires IdsAreOurs(snapshot, entities, ids)
    ensures forall a :: a in BuiltAttributes(fold, snapshot, ps, ids, start) ==>
      a.status == PROPOSED && NamesAnEntity(entities, a.entityId) && AttributeDescribed(fold, snapshot, entities, a)
  {
    if ps != [] {
      var n := |ps| - 1;
      AttributesAreReal(fold, snapshot, ps[..n], entities, ids, start);
      var before := BuiltAttributes(fold, snapshot, ps[..n], ids, start);
      var after := BuiltAttributes(fold, snapshot, ps, ids, start);
      if ps[n].table in ids && ColumnIn(fold, snapshot, ps[n].table, ps[n].column).Some? {
        EntityOfId(snapshot, entities, ids, ps[n].table);
        SameColumnByFoundName(fold, snapshot, ps[n].table, ps[n].column);
        assert AttributeDescribed(fold, snapshot, entities, after[|before|]);
        assert after == before + [after[|before|]];
      }
      hide AttributeDescribed, NamesAnEntity, IdsAreOurs, ColumnIn;
    }
  }

  /** Looking a column up by the name it was found under finds it again. */
  lemma {:induction false} SameColumnByFoundName(fold: Fold, snapshot: Snapshot, identifier: string, name: string)
    requires ColumnIn(fold, snapshot, identifier, name).Some?
    ensures var c := ColumnIn(fold, snapshot, identifier, name).value;
      ColumnIn(fold, snapshot, identifier, c.name) == Some(c)
  {
    var t := FindTable(snapshot.tables, identifier).value;
    FindColumnByFold(fold, t.columns, name, ColumnIn(fold, snapshot, identifier, name).value.name);
  }

  lemma {:induction false} FindColumnByFold(fold: Fold, columns: seq<Column>, a: string, b: string)
    requires fold(a) == fold(b)
    ensures FindColumn(fold, columns, a) == FindColumn(fold, columns, b)
  {
    if columns != [] {
      FindColumnByFold(fold, columns[1..], a, b);
    }
  }

  method BuildRelationships(
    fold: Fold, snapshot: Snapshot, proposals: seq<RelationshipProposal>, ids: map<string, nat>, start: nat)
    returns (relationships: seq<Relationship>)
    ensures relationships == BuiltRelationships(fold, snapshot, proposals, ids, start)
  {
    hide ColumnIn;
    relationships := [];
    for i := 0 to |proposals|
      invariant relationships == BuiltRelationships(fold, snapshot, proposals[..i], ids, start)
    {
      var p := proposals[i];
      var from := ColumnIn(fold, snapshot, p.fromTable, p.fromColumn);
      var to := ColumnIn(fold, snapshot, p.toTable, p.toColumn);
      assert proposals[..i + 1][..i] == proposals[..i];
      if p.fromTable in ids && p.toTable in ids && from.Some? && to.Some? {
        relationships := relationships
          + [Relationship(start + |relationships|, ids[p.fromTable], ids[p.toTable], from.value.name, to.value.name,
                          p.name, PROPOSED)];
      }
    }
    assert proposals[..|proposals|] == proposals;
  }

  lemma {:induction false} EndIsReal(
    fold: Fold, snapshot: Snapshot, entities: seq<Entity>, ids: map<string, nat>, t: string, name: string)
    requires IdsAreOurs(snapshot, entities, ids) && t in ids && ColumnIn(fold, snapshot, t, name).Some?
    ensures NamesAnEntity(entities, ids[t])
    ensures EndDescribed(fold, snapshot, entities, ids[t], ColumnIn(fold, snapshot, t, name).value.name)
  {
    EntityOfId(snapshot, entities, ids, t);
    SameColumnByFoundName(fold, snapshot, t, name);
    hide ColumnIn, IdsAreOurs;
  }

  lemma {:induction false} RelationshipsAreReal(
    fold: Fold, snapshot: Snapshot, ps: seq<RelationshipProposal>, entities: seq<Entity>, ids: map<string, nat>,
    start: nat)
    requires IdsAreOurs(snapshot, entities, ids)
    ensures forall x :: x in BuiltRelationships(fold, snapshot, ps, ids, start) ==>
      && x.status == PROPOSED && NamesAnEntity(entities, x.fromEntityId) && NamesAnEntity(entities, x.toEntityId)
      && EndDescribed(fold, snapshot, entities, x.fromEntityId, x.fromColumn)
      && EndDescribed(fold, snapshot, entities, x.toEntityId, x.toColumn)
  {
    if ps != [] {
      hide NamesAnEntity, IdsAreOurs, ColumnIn, EndDescribed;
      var p := ps[|ps| - 1];
      RelationshipsAreReal(fold, snapshot, ps[..|ps| - 1], entities, ids, start);
      if p.fromTable in ids && ColumnIn(fold, snapshot, p.fromTable, p.fromColumn).Some? {
        EndIsReal(fold, snapshot, entities, ids, p.fromTable, p.fromColumn);
      }
      if p.toTable in ids && ColumnIn(fold, snapshot, p.toTable, p.toColumn).Some? {
        EndIsReal(fold, snapshot, entities, ids, p.toTable, p.toColumn);
      }
    }
  }

  function Built(fold: Fold, snapshot: Snapshot, ps: Proposals, start: nat): Model {
    var entities := BuiltEntities(snapshot, ps.entities, start);
    var ids := EntityIds(snapshot, ps.entities, start);
    var attributes := BuiltAttributes(fold, snapshot, ps.attributes, ids, start + |entities|);
    Model(snapshot.fingerprint, entities, attributes,
          BuiltRelationships(fold, snapshot, ps.relationships, ids, start + |entities| + |attributes|))
  }

  /** No proposal about a real column of a proposed table is lost. */
  lemma {:induction false} RealAttributeIsKept(
    fold: Fold, snapshot: Snapshot, ps: seq<AttributeProposal>, ids: map<string, nat>, start: nat, i: nat)
    requires i < |ps| && ps[i].table in ids && ColumnIn(fold, snapshot, ps[i].table, ps[i].column).Some?
    ensures var column := ColumnIn(fold, snapshot, ps[i].table, ps[i].column).value;
      exists a ::
        && a in BuiltAttributes(fold, snapshot, ps, ids, start)
        && a.entityId == ids[ps[i].table] && a.column == column.name && a.concept == ps[i].concept
        && a.dataType == Some(column.dataType)
    decreases |ps|
  {
    var n := |ps| - 1;
    var before, all := BuiltAttributes(fold, snapshot, ps[..n], ids, start), BuiltAttributes(fold, snapshot, ps, ids, start);
    if i == n {
      assert all[|all| - 1] in all;
    } else {
      RealAttributeIsKept(fold, snapshot, ps[..n], ids, start, i);
      assert forall a :: a in before ==> a in all;
    }
  }

  /** The entity stored for a proposal: of the table the proposal names, under the proposed name. */
  ghost predicate EntityOf(snapshot: Snapshot, p: EntityProposal, e: Entity) {
    && FindTable(snapshot.tables, p.table).Some? && Identifier(e.schema, e.table) == p.table
    && e.name == p.name && e.status == PROPOSED && e.fingerprint == snapshot.fingerprint
  }

  /** The attribute stored for a proposal: of the column it names, an identifier if proposed or a primary key. */
  ghost predicate AttributeOf(
    fold: Fold, snapshot: Snapshot, ids: map<string, nat>, p: AttributeProposal, a: Attribute)
  {
    && p.table in ids && a.entityId == ids[p.table]
    && var column := ColumnIn(fold, snapshot, p.table, p.column);
    && column.Some? && a.column == column.value.name && a.dataType == Some(column.value.dataType)
    && a.concept == p.concept && (a.isIdentifier <==> p.isIdentifier || column.value.isPrimaryKey) && a.status == PROPOSED
  }

  ghost predicate RelationshipOf(
    fold: Fold, snapshot: Snapshot, ids: map<string, nat>, p: RelationshipProposal, x: Relationship)
  {
    && p.fromTable in ids && x.fromEntityId == ids[p.fromTable] && p.toTable in ids && x.toEntityId == ids[p.toTable]
    && var from, to := ColumnIn(fold, snapshot, p.fromTable, p.fromColumn), ColumnIn(fold, snapshot, p.toTable, p.toColumn);
    && from.Some? && x.fromColumn == from.value.name && to.Some? && x.toColumn == to.value.name
    && x.name == p.name && x.status == PROPOSED
  }

  /** Each entity is some proposal's, and each proposal about a real table has its entity. */
  lemma {:induction false} EntitiesAreProposed(snapshot: Snapshot, ps: seq<EntityProposal>, start: nat)
    ensures forall e :: e in BuiltEntities(snapshot, ps, start) ==> exists p :: p in ps && EntityOf(snapshot, p, e)
    ensures forall p :: p in ps && FindTable(snapshot.tables, p.table).Some? ==>
      exists e :: e in BuiltEntities(snapshot, ps, start) && EntityOf(snapshot, p, e)
  {
    if ps != [] {
      var n := |ps| - 1;
      var before, after := BuiltEntities(snapshot, ps[..n], start), BuiltEntities(snapshot, ps, start);
      EntitiesAreProposed(snapshot, ps[..n], start);
      assert ps == ps[..n] + [ps[n]];
      if FindTable(snapshot.tables, ps[n].table).Some? {
        assert after == before + [after[|before|]] && EntityOf(snapshot, ps[n], after[|before|]);
      }
      hide EntityOf, FindTable;
    }
  }

  lemma {:induction false} AttributesAreProposed(
    fold: Fold, snapshot: Snapshot, ps: seq<AttributeProposal>, ids: map<string, nat>, start: nat)
    ensures forall a :: a in BuiltAttributes(fold, snapshot, ps, ids, start) ==>
      exists p :: p in ps && AttributeOf(fold, snapshot, ids, p, a)
    ensures forall p :: p in ps && p.table in ids && ColumnIn(fold, snapshot, p.table, p.column).Some? ==>
      exists a :: a in BuiltAttributes(fold, snapshot, ps, ids, start) && AttributeOf(fold, snapshot, ids, p, a)
  {
    if ps != [] {
      var n := |ps| - 1;
      var before := BuiltAttributes(fold, snapshot, ps[..n], ids, start);
      var after := BuiltAttributes(fold, snapshot, ps, ids, start);
      AttributesAreProposed(fold, snapshot, ps[..n], ids, start);
      assert ps == ps[..n] + [ps[n]];
      if ps[n].table in ids && ColumnIn(fold, snapshot, ps[n].table, ps[n].column).Some? {
        assert after == before + [after[|before|]] && AttributeOf(fold, snapshot, ids, ps[n], after[|before|]);
      }
      hide AttributeOf, ColumnIn;
    }
  }

  lemma {:induction false} RelationshipsAreProposed(
    fold: Fold, snapshot: Snapshot, ps: seq<RelationshipProposal>, ids: map<string, nat>, start: nat)
    ensures forall x :: x in BuiltRelationships(fold, snapshot, ps, ids, start) ==>
      exists p :: p in ps && RelationshipOf(fold, snapshot, ids, p, x)
    ensures forall p :: p in ps && p.fromTable in ids && p.toTable in ids
                        && ColumnIn(fold, snapshot, p.fromTable, p.fromColumn).Some?
                        && ColumnIn(fold, snapshot, p.toTable, p.toColumn).Some? ==>
      exists x :: x in BuiltRelationships(fold, snapshot, ps, ids, start) && RelationshipOf(fold, snapshot, ids, p, x)
  {
    if ps != [] {
      var n := |ps| - 1;
      var before := BuiltRelationships(fold, snapshot, ps[..n], ids, start);
      var after := BuiltRelationships(fold, snapshot, ps, ids, start);
      RelationshipsAreProposed(fold, snapshot, ps[..n], ids, start);
      assert ps == ps[..n] + [ps[n]];
      if ps[n].fromTable in ids && ps[n].toTable in ids
         && ColumnIn(fold, snapshot, ps[n].fromTable, ps[n].fromColumn).Some?
         && ColumnIn(fold, snapshot, ps[n].toTable, ps[n].toColumn).Some? {
        assert after == before + [after[|before|]] && RelationshipOf(fold, snapshot, ids, ps[n], after[|before|]);
      }
      hide RelationshipOf, ColumnIn;
    }
  }

  /** Whatever is proposed, what is stored is only proposed, and only about what the schema has. */
  method BuildSemanticModel(fold: Fold, snapshot: Snapshot, proposals: Proposals, start: nat) returns (m: Model)
    ensures m == Built(fold, snapshot, proposals, start)
    ensures AllProposed(m) && WellReferenced(m) && DistinctEntityIds(m) && Described(fold, snapshot, m)
  {
    var entities, ids := BuildEntities(snapshot, proposals.entities, start);
    var attributes := BuildAttributes(fold, snapshot, proposals.attributes, ids, start + |entities|);
    var relationships := BuildRelationships(
      fold, snapshot, proposals.relationships, ids, start + |entities| + |attributes|);
    assert Built(fold, snapshot, proposals, start)
        == Model(snapshot.fingerprint, entities, attributes, relationships) by {
      hide BuiltEntities, EntityIds, BuiltAttributes, BuiltRelationships;
    }
    m := Model(snapshot.fingerprint, entities, attributes, relationships);
    BuiltIsSound(fold, snapshot, proposals, start);
    hide *;
  }

  /** What is built, part by part, is proposed, described and well referenced as a whole. */
  lemma {:induction false} PartsAreSound(fold: Fold, snapshot: Snapshot, m: Model, start: nat)
    requires forall i :: 0 <= i < |m.entities| ==>
      && m.entities[i].id == start + i && m.entities[i].status == PROPOSED
      && FindTable(snapshot.tables, Identifier(m.entities[i].schema, m.entities[i].table)).Some?
    requires forall a :: a in m.attributes ==>
      && a.status == PROPOSED && NamesAnEntity(m.entities, a.entityId)
      && AttributeDescribed(fold, snapshot, m.entities, a)
    requires forall x :: x in m.relationships ==>
      && x.status == PROPOSED && NamesAnEntity(m.entities, x.fromEntityId) && NamesAnEntity(m.entities, x.toEntityId)
      && EndDescribed(fold, snapshot, m.entities, x.fromEntityId, x.fromColumn)
      && EndDescribed(fold, snapshot, m.entities, x.toEntityId, x.toColumn)
    ensures AllProposed(m) && WellReferenced(m) && DistinctEntityIds(m) && Described(fold, snapshot, m)
  {
    hide AttributeDescribed, NamesAnEntity, EndDescribed, FindTable, Identifier;
    assert forall i :: 0 <= i < |m.attributes| ==> m.attributes[i] in m.attributes;
    assert forall i :: 0 <= i < |m.relationships| ==> m.relationships[i] in m.relationships;
  }

  lemma {:induction false} BuiltIsSound(fold: Fold, snapshot: Snapshot, ps: Proposals, start: nat)
    ensures var m := Built(fold, snapshot, ps, start);
      AllProposed(m) && WellReferenced(m) && DistinctEntityIds(m) && Described(fold, snapshot, m)
  {
    hide BuiltEntities, EntityIds, BuiltAttributes, BuiltRelationships, AttributeDescribed, NamesAnEntity, IdsAreOurs,
      EndDescribed, FindTable, Identifier, AllProposed, WellReferenced, DistinctEntityIds, Described;
    var m := Built(fold, snapshot, ps, start);
    var ids := EntityIds(snapshot, ps.entities, start);
    EntitiesAreReal(snapshot, ps.entities, start);
    AttributesAreReal(fold, snapshot, ps.attributes, m.entities, ids, start + |m.entities|);
    RelationshipsAreReal(
      fold, snapshot, ps.relationships, m.entities, ids, start + |m.entities| + |m.attributes|);
    PartsAreSound(fold, snapshot, m, start);
  }

  // ---------------------------------------------------------------------------------------------
  // Review

  function Renamed(name: string, replacement: Option<string>): string {
    if replacement.Some? && replacement.value != "" then replacement.value else name
  }

  function ReviewedEntity(e: Entity, id: nat, status: ApprovalStatus, name: Option<string>): Entity {
    if e.id != id then e else e.(status := status, name := Renamed(e.name, name))
  }

  function ReviewedEntities(es: seq<Entity>, id: nat, status: ApprovalStatus, name: Option<string>): (r: seq<Entity>)
    ensures |r| == |es| && forall i :: 0 <= i < |es| ==> r[i] == ReviewedEntity(es[i], id, status, name)
  {
    seq(|es|, i requires 0 <= i < |es| => ReviewedEntity(es[i], id, status, name))
  }

  function ReviewedAttribute(a: Attribute, id: nat, status: ApprovalStatus, concept: Option<string>): Attribute {
    if a.id != id then a else a.(status := status, concept := Renamed(a.concept, concept))
  }

  function ReviewedAttributes(xs: seq<Attribute>, id: nat, status: ApprovalStatus, concept: Option<string>):
    (r: seq<Attribute>)
    ensures |r| == |xs| && forall i :: 0 <= i < |xs| ==> r[i] == ReviewedAttribute(xs[i], id, status, concept)
  {
    seq(|xs|, i requires 0 <= i < |xs| => ReviewedAttribute(xs[i], id, status, concept))
  }

  function ReviewedRelationship(x: Relationship, id: nat, status: ApprovalStatus, name: Option<string>): Relationship {
    if x.id != id then x else x.(status := status, name := Renamed(x.name, name))
  }

  function ReviewedRelationships(xs: seq<Relationship>, id: nat, status: ApprovalStatus, name: Option<string>):
    (r: seq<Relationship>)
    ensures |r| == |xs| && forall i :: 0 <= i < |xs| ==> r[i] == ReviewedRelationship(xs[i], id, status, name)
  {
    seq(|xs|, i requires 0 <= i < |xs| => ReviewedRelationship(xs[i], id, status, name))
  }

  method UpdateEntity(m: Model, id: nat, status: ApprovalStatus, name: Option<string>) returns (r: Option<Model>)
    ensures r.None? <==> !NamesAnEntity(m.entities, id)
    ensures r.Some? ==> r.value == m.(entities := ReviewedEntities(m.entities, id, status, name))
    ensures r.Some? ==> |r.value.entities| == |m.entities| && forall i :: 0 <= i < |m.entities| ==>
      var was, now := m.entities[i], r.value.entities[i];
      if was.id != id then now == was
      else
        && now.status == status && now.name == (if name.Some? && name.value != "" then name.value else was.name)
        && now.(status := was.status, name := was.name) == was
  {
    var found := false;
    var updated: seq<Entity> := [];
    for i := 0 to |m.entities|
      invariant found <==> exists j :: 0 <= j < i && m.entities[j].id == id
      invariant updated == ReviewedEntities(m.entities, id, status, name)[..i]
    {
      if m.entities[i].id == id {
        found := true;
        var renamed := Renamed(m.entities[i].name, name);
        updated := updated + [m.entities[i].(status := status, name := renamed)];
      } else {
        updated := updated + [m.entities[i]];
      }
    }
    return if found then Some(m.(entities := updated)) else None;
  }

  method UpdateAttribute(m: Model, id: nat, status: ApprovalStatus, concept: Option<string>) returns (r: Option<Model>)
    ensures r.None? <==> forall i :: 0 <= i < |m.attributes| ==> m.attributes[i].id != id
    ensures r.Some? ==> r.value == m.(attributes := ReviewedAttributes(m.attributes, id, status, concept))
    ensures r.Some? ==> |r.value.attributes| == |m.attributes| && forall i :: 0 <= i < |m.attributes| ==>
      var was, now := m.attributes[i], r.value.attributes[i];
      if was.id != id then now == was
      else
        && now.status == status && now.concept == (if concept.Some? && concept.value != "" then concept.value else was.concept)
        && now.(status := was.status, concept := was.concept) == was
  {
    var found := false;
    var updated: seq<Attribute> := [];
    for i := 0 to |m.attributes|
      invariant found <==> exists j :: 0 <= j < i && m.attributes[j].id == id
      invariant updated == ReviewedAttributes(m.attributes, id, status, concept)[..i]
    {
      if m.attributes[i].id == id {
        found := true;
        var renamed := Renamed(m.attributes[i].concept, concept);
        updated := updated + [m.attributes[i].(status := status, concept := renamed)];
      } else {
        updated := updated + [m.attributes[i]];
      }
    }
    return if found then Some(m.(attributes := updated)) else None;
  }

  method UpdateRelationship(m: Model, id: nat, status: ApprovalStatus, name: Option<string>) returns (r: Option<Model>)
    ensures r.None? <==> forall i :: 0 <= i < |m.relationships| ==> m.relationships[i].id != id
    ensures r.Some? ==> r.value == m.(relationships := ReviewedRelationships(m.relationships, id, status, name))
    ensures r.Some? ==> |r.value.relationships| == |m.relationships| && forall i :: 0 <= i < |m.relationships| ==>
      var was, now := m.relationships[i], r.value.relationships[i];
      if was.id != id then now == was
      else
        && now.status == status && now.name == (if name.Some? && name.value != "" then name.value else was.name)
        && now.(status := was.status, name := was.name) == was
  {
    var found := false;
    var updated: seq<Relationship> := [];
    for i := 0 to |m.relationships|
      invariant found <==> exists j :: 0 <= j < i && m.relationships[j].id == id
      invariant updated == ReviewedRelationships(m.relationships, id, status, name)[..i]
    {
      if m.relationships[i].id == id {
        found := true;
        var renamed := Renamed(m.relationships[i].name, name);
        updated := updated + [m.relationships[i].(status := status, name := renamed)];
      } else {
        updated := updated + [m.relationships[i]];
      }
    }
    return if found then Some(m.(relationships := updated)) else None;
  }

  // ---------------------------------------------------------------------------------------------
  // Reconciling with a rescanned schema

  predicate TableGone(snapshot: Snapshot, e: Entity) {
    FindTable(snapshot.tables, Identifier(e.schema, e.table)).None?
  }

  function ReconciledEntity(snapshot: Snapshot, e: Entity): Entity {
    if e.status == REJECTED then e
    else if TableGone(snapshot, e) then e.(status := STALE, fingerprint := snapshot.fingerprint)
    else e.(fingerprint := snapshot.fingerprint)
  }

  function ReconciledEntities(snapshot: Snapshot, es: seq<Entity>): (r: seq<Entity>)
    ensures |r| == |es| && forall i :: 0 <= i < |es| ==> r[i] == ReconciledEntity(snapshot, es[i])
  {
    seq(|es|, i requires 0 <= i < |es| => ReconciledEntity(snapshot, es[i]))
  }

  function StaleIds(snapshot: Snapshot, es: seq<Entity>): set<nat> {
    set i | 0 <= i < |es| && es[i].status != REJECTED && TableGone(snapshot, es[i]) :: es[i].id
  }

  /** The last entity with this id, as an index built in order holds it. */
  function ById(es: seq<Entity>, id: nat): (e: Option<Entity>)
    ensures e.Some? ==> e.value in es && e.value.id == id
    ensures e.None? <==> forall i :: 0 <= i < |es| ==> es[i].id != id
  {
    if es == [] then None
    else if es[|es| - 1].id == id then Some(es[|es| - 1])
    else ById(es[..|es| - 1], id)
  }

  function AttributeColumn(fold: Fold, snapshot: Snapshot, es: seq<Entity>, a: Attribute): Option<Column> {
    var parent := ById(es, a.entityId);
    if parent.None? then None
    else ColumnIn(fold, snapshot, Identifier(parent.value.schema, parent.value.table), a.column)
  }

  predicate AttributeBroken(fold: Fold, snapshot: Snapshot, es: seq<Entity>, stale: set<nat>, a: Attribute) {
    var column := AttributeColumn(fold, snapshot, es, a);
    || a.entityId in stale
    || column.None?
    || (a.dataType.Some? && fold(column.value.dataType) != fold(a.dataType.value))
  }

  function ReconciledAttribute(fold: Fold, snapshot: Snapshot, es: seq<Entity>, stale: set<nat>, a: Attribute): Attribute {
    if a.status != REJECTED && AttributeBroken(fold, snapshot, es, stale, a) then a.(status := STALE) else a
  }

  function ReconciledAttributes(fold: Fold, snapshot: Snapshot, es: seq<Entity>, stale: set<nat>, xs: seq<Attribute>):
    (r: seq<Attribute>)
    ensures |r| == |xs| && forall i :: 0 <= i < |xs| ==> r[i] == ReconciledAttribute(fold, snapshot, es, stale, xs[i])
  {
    seq(|xs|, i requires 0 <= i < |xs| => ReconciledAttribute(fold, snapshot, es, stale, xs[i]))
  }

  predicate EndpointsPresent(es: seq<Entity>, stale: set<nat>, x: Relationship) {
    && ById(es, x.fromEntityId).Some? && x.fromEntityId !in stale
    && ById(es, x.toEntityId).Some? && x.toEntityId !in stale
  }

  function ReconciledRelationship(es: seq<Entity>, stale: set<nat>, x: Relationship): Relationship {
    if x.status != REJECTED && !EndpointsPresent(es, stale, x) then x.(status := STALE) else x
  }

  function ReconciledRelationships(es: seq<Entity>, stale: set<nat>, xs: seq<Relationship>): (r: seq<Relationship>)
    ensures |r| == |xs| && forall i :: 0 <= i < |xs| ==> r[i] == ReconciledRelationship(es, stale, xs[i])
  {
    seq(|xs|, i requires 0 <= i < |xs| => ReconciledRelationship(es, stale, xs[i]))
  }

  function Reconciled(fold: Fold, m: Model, snapshot: Snapshot): Model {
    var es, stale := ReconciledEntities(snapshot, m.entities), StaleIds(snapshot, m.entities);
    Model(snapshot.fingerprint, es,
          ReconciledAttributes(fold, snapshot, es, stale, m.attributes),
          ReconciledRelationships(es, stale, m.relationships))
  }

  method ReconcileEntities(snapshot: Snapshot, es: seq<Entity>) returns (entities: seq<Entity>, stale: set<nat>)
    ensures entities == ReconciledEntities(snapshot, es) && stale == StaleIds(snapshot, es)
  {
    entities, stale := [], {};
    for i := 0 to |es|
      invariant entities == ReconciledEntities(snapshot, es)[..i]
      invariant stale == StaleIds(snapshot, es[..i])
    {
      var e := es[i];
      assert StaleIds(snapshot, es[..i + 1])
          == StaleIds(snapshot, es[..i]) + if e.status != REJECTED && TableGone(snapshot, e) then {e.id} else {} by {
        StaleIdsAppend(snapshot, es[..i], e);
        assert es[..i + 1] == es[..i] + [e];
      }
      if e.status == REJECTED {
        entities := entities + [e];
      } else if FindTable(snapshot.tables, Identifier(e.schema, e.table)).None? {
        stale := stale + {e.id};
        entities := entities + [e.(status := STALE, fingerprint := snapshot.fingerprint)];
      } else {
        entities := entities + [e.(fingerprint := snapshot.fingerprint)];
      }
    }
    assert es[..|es|] == es;
  }

  lemma {:induction false} StaleIdsAppend(snapshot: Snapshot, es: seq<Entity>, e: Entity)
    ensures StaleIds(snapshot, es + [e])
         == StaleIds(snapshot, es) + if e.status != REJECTED && TableGone(snapshot, e) then {e.id} else {}
  {
    var after := es + [e];
    forall id | id in StaleIds(snapshot, es) ensures id in StaleIds(snapshot, after) {
      var i :| 0 <= i < |es| && es[i].status != REJECTED && TableGone(snapshot, es[i]) && es[i].id == id;
      assert after[i] == es[i];
    }
    if e.status != REJECTED && TableGone(snapshot, e) {
      assert after[|es|] == e;
    }
  }

  method IndexEntities(es: seq<Entity>) returns (byId: map<nat, Entity>)
    ensures forall id: nat :: ById(es, id) == if id in byId then Some(byId[id]) else None
  {
    byId := map[];
    for i := 0 to |es|
      invariant forall id: nat :: ById(es[..i], id) == if id in byId then Some(byId[id]) else None
    {
      byId := byId[es[i].id := es[i]];
      assert es[..i + 1][..i] == es[..i];
    }
    assert es[..|es|] == es;
  }

  method ReconcileAttributes(
    fold: Fold, snapshot: Snapshot, es: seq<Entity>, byId: map<nat, Entity>, stale: set<nat>, xs: seq<Attribute>)
    returns (attributes: seq<Attribute>)
    requires forall id: nat :: ById(es, id) == if id in byId then Some(byId[id]) else None
    ensures attributes == ReconciledAttributes(fold, snapshot, es, stale, xs)
  {
    hide ById, ReconciledAttributes, ColumnIn;
    attributes := [];
    for i := 0 to |xs|
      invariant attributes == ReconciledAttributes(fold, snapshot, es, stale, xs)[..i]
    {
      var a := xs[i];
      if a.status == REJECTED {
        attributes := attributes + [a];
      } else {
        assert ById(es, a.entityId) == if a.entityId in byId then Some(byId[a.entityId]) else None;
        var column := if a.entityId !in byId then None
          else ColumnIn(fold, snapshot, Identifier(byId[a.entityId].schema, byId[a.entityId].table), a.column);
        var typeChanged := column.Some? && a.dataType.Some? && fold(column.value.dataType) != fold(a.dataType.value);
        if a.entityId in stale || column.None? || typeChanged {
          attributes := attributes + [a.(status := STALE)];
        } else {
          attributes := attributes + [a];
        }
      }
    }
  }

  method ReconcileRelationships(es: seq<Entity>, byId: map<nat, Entity>, stale: set<nat>, xs: seq<Relationship>)
    returns (relationships: seq<Relationship>)
    requires forall id: nat :: ById(es, id) == if id in byId then Some(byId[id]) else None
    ensures relationships == ReconciledRelationships(es, stale, xs)
  {
    hide ById, ReconciledRelationships;
    relationships := [];
    for i := 0 to |xs|
      invariant relationships == ReconciledRelationships(es, stale, xs)[..i]
    {
      var x := xs[i];
      assert ById(es, x.fromEntityId).Some? <==> x.fromEntityId in byId;
      assert ById(es, x.toEntityId).Some? <==> x.toEntityId in byId;
      var present := x.fromEntityId in byId && x.fromEntityId !in stale && x.toEntityId in byId && x.toEntityId !in stale;
      if x.status == REJECTED || present {
        relationships := relationships + [x];
      } else {
        relationships := relationships + [x.(status := STALE)];
      }
    }
  }

  method ReconcileWithSchema(fold: Fold, m: Model, snapshot: Snapshot) returns (r: Model)
    ensures r == Reconciled(fold, m, snapshot)
  {
    hide ById, ReconciledEntities, ReconciledAttributes, ReconciledRelationships, StaleIds;
    var entities, stale := ReconcileEntities(snapshot, m.entities);
    var byId := IndexEntities(entities);
    var attributes := ReconcileAttributes(fold, snapshot, entities, byId, stale, m.attributes);
    var relationships := ReconcileRelationships(entities, byId, stale, m.relationships);
    r := Model(snapshot.fingerprint, entities, attributes, relationships);
  }

  // ---------------------------------------------------------------------------------------------
  // What reconciling promises

  /** Reconciling again with the same schema changes nothing. */
  lemma {:induction false} ReconcileIsIdempotent(fold: Fold, m: Model, snapshot: Snapshot)
    ensures Reconciled(fold, Reconciled(fold, m, snapshot), snapshot) == Reconciled(fold, m, snapshot)
  {
    var once := Reconciled(fold, m, snapshot);
    assert ReconciledEntities(snapshot, once.entities) == once.entities;
    StaleIdsSame(snapshot, m.entities);
    hide TableGone, AttributeBroken, EndpointsPresent, StaleIds;
    var stale := StaleIds(snapshot, m.entities);
    assert ReconciledAttributes(fold, snapshot, once.entities, stale, once.attributes) == once.attributes by {
      forall i | 0 <= i < |m.attributes|
        ensures ReconciledAttribute(fold, snapshot, once.entities, stale, once.attributes[i]) == once.attributes[i]
      {
        BrokenIgnoresStatus(fold, snapshot, once.entities, stale, m.attributes[i]);
      }
    }
    assert ReconciledRelationships(once.entities, stale, once.relationships) == once.relationships by {
      forall i | 0 <= i < |m.relationships|
        ensures ReconciledRelationship(once.entities, stale, once.relationships[i]) == once.relationships[i]
      {
        EndpointsIgnoreStatus(once.entities, stale, m.relationships[i]);
      }
    }
  }

  lemma {:induction false} StaleIdsSame(snapshot: Snapshot, es: seq<Entity>)
    ensures StaleIds(snapshot, ReconciledEntities(snapshot, es)) == StaleIds(snapshot, es)
  {
    var after := ReconciledEntities(snapshot, es);
    assert forall i :: 0 <= i < |es| ==>
      after[i].id == es[i].id && (after[i].status == REJECTED <==> es[i].status == REJECTED)
      && (TableGone(snapshot, after[i]) <==> TableGone(snapshot, es[i]));
  }

  lemma {:induction false} BrokenIgnoresStatus(fold: Fold, snapshot: Snapshot, es: seq<Entity>, stale: set<nat>, a: Attribute)
    ensures AttributeBroken(fold, snapshot, es, stale, a.(status := STALE))
       <==> AttributeBroken(fold, snapshot, es, stale, a)
  {
  }

  lemma {:induction false} EndpointsIgnoreStatus(es: seq<Entity>, stale: set<nat>, x: Relationship)
    ensures EndpointsPresent(es, stale, x.(status := STALE)) <==> EndpointsPresent(es, stale, x)
  {
  }

  /** How one status may move: a rejection stands, nothing becomes confirmed, and only into staleness. */
  predicate MayMove(before: ApprovalStatus, after: ApprovalStatus) {
    after == before || (before != REJECTED && after == STALE)
  }

  ghost predicate SameButStatus(m: Model, r: Model) {
    && |r.entities| == |m.entities| && |r.attributes| == |m.attributes| && |r.relationships| == |m.relationships|
    && (forall i :: 0 <= i < |m.entities| ==>
          MayMove(m.entities[i].status, r.entities[i].status)
          && r.entities[i].(status := m.entities[i].status, fingerprint := m.entities[i].fingerprint) == m.entities[i])
    && (forall i :: 0 <= i < |m.attributes| ==>
          MayMove(m.attributes[i].status, r.attributes[i].status)
          && r.attributes[i].(status := m.attributes[i].status) == m.attributes[i])
    && (forall i :: 0 <= i < |m.relationships| ==>
          MayMove(m.relationships[i].status, r.relationships[i].status)
          && r.relationships[i].(status := m.relationships[i].status) == m.relationships[i])
  }

  /**
   * What being confirmed means once a model has been reconciled. Of a relationship's ends it says no
   * more than `EndHolds`, and nothing of its columns: `UntrueRelationshipExactly` says what that leaves.
   */
  ghost predicate ConfirmedHolds(fold: Fold, snapshot: Snapshot, m: Model) {
    && (forall i :: 0 <= i < |m.entities| && m.entities[i].status == CONFIRMED ==> !TableGone(snapshot, m.entities[i]))
    && (forall i :: 0 <= i < |m.attributes| && m.attributes[i].status == CONFIRMED ==>
          ConfirmedColumn(fold, snapshot, m.entities, m.attributes[i]))
    && (forall i :: 0 <= i < |m.relationships| && m.relationships[i].status == CONFIRMED ==>
          EndHolds(snapshot, m.entities, m.relationships[i].fromEntityId)
          && EndHolds(snapshot, m.entities, m.relationships[i].toEntityId))
  }

  ghost predicate ConfirmedColumn(fold: Fold, snapshot: Snapshot, es: seq<Entity>, a: Attribute) {
    && AttributeColumn(fold, snapshot, es, a).Some?
    && (a.dataType.Some? ==> fold(AttributeColumn(fold, snapshot, es, a).value.dataType) == fold(a.dataType.value))
    && EndHolds(snapshot, es, a.entityId)
  }

  /** The id names an entity, and every entity of that id has its table or was rejected. */
  ghost predicate EndHolds(snapshot: Snapshot, es: seq<Entity>, id: nat) {
    && NamesAnEntity(es, id)
    && forall i :: 0 <= i < |es| && es[i].id == id ==> es[i].status == REJECTED || !TableGone(snapshot, es[i])
  }

  lemma {:induction false} NotStaleHolds(snapshot: Snapshot, es: seq<Entity>, id: nat)
    requires id !in StaleIds(snapshot, es) && ById(ReconciledEntities(snapshot, es), id).Some?
    ensures EndHolds(snapshot, ReconciledEntities(snapshot, es), id)
  {
    var after := ReconciledEntities(snapshot, es);
    var k :| 0 <= k < |after| && after[k].id == id;
    assert forall i :: 0 <= i < |es| && es[i].status != REJECTED && TableGone(snapshot, es[i]) ==>
      es[i].id in StaleIds(snapshot, es);
    assert forall i :: 0 <= i < |es| ==> after[i].id == es[i].id;
  }

  /** Reconciling keeps ids, order and meanings, and leaves confirmed only what the schema still has. */
  lemma {:induction false} ReconcilePromises(fold: Fold, m: Model, snapshot: Snapshot)
    ensures SameButStatus(m, Reconciled(fold, m, snapshot))
    ensures ConfirmedHolds(fold, snapshot, Reconciled(fold, m, snapshot))
    ensures Reconciled(fold, m, snapshot).fingerprint == snapshot.fingerprint
    ensures forall i :: 0 <= i < |m.entities| ==>
      Reconciled(fold, m, snapshot).entities[i].fingerprint
      == if m.entities[i].status == REJECTED then m.entities[i].fingerprint else snapshot.fingerprint
  {
    ReconcileMoves(fold, m, snapshot);
    var r := Reconciled(fold, m, snapshot);
    forall i | 0 <= i < |r.attributes| && r.attributes[i].status == CONFIRMED
      ensures ConfirmedColumn(fold, snapshot, r.entities, r.attributes[i])
    {
      NotStaleHolds(snapshot, m.entities, r.attributes[i].entityId);
    }
    forall i | 0 <= i < |r.relationships| && r.relationships[i].status == CONFIRMED
      ensures EndHolds(snapshot, r.entities, r.relationships[i].fromEntityId)
      ensures EndHolds(snapshot, r.entities, r.relationships[i].toEntityId)
    {
      NotStaleHolds(snapshot, m.entities, r.relationships[i].fromEntityId);
      NotStaleHolds(snapshot, m.entities, r.relationships[i].toEntityId);
    }
    hide SameButStatus, ConfirmedColumn, EndHolds;
  }

  lemma {:induction false} ReconcileMoves(fold: Fold, m: Model, snapshot: Snapshot)
    ensures SameButStatus(m, Reconciled(fold, m, snapshot))
  {
    hide TableGone, AttributeBroken, EndpointsPresent, StaleIds;
  }

  lemma {:induction false} EndHoldsIsNotStale(snapshot: Snapshot, es: seq<Entity>, id: nat)
    requires EndHolds(snapshot, ReconciledEntities(snapshot, es), id)
    ensures id !in StaleIds(snapshot, es)
  {
    var after := ReconciledEntities(snapshot, es);
    forall i | 0 <= i < |es| && es[i].id == id ensures es[i].status == REJECTED || !TableGone(snapshot, es[i]) {
      assert after[i].id == id;
    }
  }

  lemma {:induction false} WholeExactly(fold: Fold, snapshot: Snapshot, es: seq<Entity>, a: Attribute)
    ensures var after := ReconciledEntities(snapshot, es);
      !AttributeBroken(fold, snapshot, after, StaleIds(snapshot, es), a) <==> ConfirmedColumn(fold, snapshot, after, a)
  {
    var after := ReconciledEntities(snapshot, es);
    if !AttributeBroken(fold, snapshot, after, StaleIds(snapshot, es), a) {
      NotStaleHolds(snapshot, es, a.entityId);
    }
    if ConfirmedColumn(fold, snapshot, after, a) {
      EndHoldsIsNotStale(snapshot, es, a.entityId);
    }
    hide EndHolds, ReconciledEntities, StaleIds;
  }

  /** A confirmed mapping goes stale exactly when what it describes is gone or has changed type. */
  lemma {:induction false} ConfirmedSurvivesExactly(fold: Fold, m: Model, snapshot: Snapshot, i: nat)
    ensures var r := Reconciled(fold, m, snapshot);
      && (i < |m.entities| && m.entities[i].status == CONFIRMED ==>
            (r.entities[i].status == CONFIRMED <==> !TableGone(snapshot, m.entities[i])))
      && (i < |m.attributes| && m.attributes[i].status == CONFIRMED ==>
            (r.attributes[i].status == CONFIRMED <==> ConfirmedColumn(fold, snapshot, r.entities, m.attributes[i])))
  {
    if i < |m.attributes| {
      WholeExactly(fold, snapshot, m.entities, m.attributes[i]);
    }
    hide TableGone, ConfirmedColumn, AttributeBroken, StaleIds;
  }

  // ---------------------------------------------------------------------------------------------
  // What reconciling does not look at

  /** The entity at one end of a relationship has its table, and there the column recorded for the join. */
  predicate EndIsTrue(fold: Fold, snapshot: Snapshot, es: seq<Entity>, id: nat, column: string) {
    var e := ById(es, id);
    e.Some? && ColumnIn(fold, snapshot, Identifier(e.value.schema, e.value.table), column).Some?
  }

  predicate JoinIsTrue(fold: Fold, snapshot: Snapshot, es: seq<Entity>, x: Relationship) {
    && EndIsTrue(fold, snapshot, es, x.fromEntityId, x.fromColumn)
    && EndIsTrue(fold, snapshot, es, x.toEntityId, x.toColumn)
  }

  /** The table is there without the column of the join, or is gone together with a rejected entity. */
  predicate EndUnchecked(fold: Fold, snapshot: Snapshot, es: seq<Entity>, id: nat, column: string) {
    var e := ById(es, id);
    && e.Some?
    && if TableGone(snapshot, e.value) then e.value.status == REJECTED
       else ColumnIn(fold, snapshot, Identifier(e.value.schema, e.value.table), column).None?
  }

  predicate JoinUnchecked(fold: Fold, snapshot: Snapshot, es: seq<Entity>, x: Relationship) {
    || EndUnchecked(fold, snapshot, es, x.fromEntityId, x.fromColumn)
    || EndUnchecked(fold, snapshot, es, x.toEntityId, x.toColumn)
  }

  lemma {:induction false} ByIdReconciled(snapshot: Snapshot, es: seq<Entity>, id: nat)
    ensures ById(ReconciledEntities(snapshot, es), id)
         == var e := ById(es, id); if e.None? then None else Some(ReconciledEntity(snapshot, e.value))
  {
    if es != [] {
      var n := |es| - 1;
      assert ReconciledEntities(snapshot, es)[..n] == ReconciledEntities(snapshot, es[..n]);
      ByIdReconciled(snapshot, es[..n], id);
    }
  }

  /** At an end the rescan was content with, the join is untrue exactly where the rescan does not look. */
  lemma {:induction false} EndUntrueExactly(fold: Fold, snapshot: Snapshot, es: seq<Entity>, id: nat, column: string)
    requires ById(es, id).Some? && id !in StaleIds(snapshot, es)
    ensures !EndIsTrue(fold, snapshot, es, id, column) <==> EndUnchecked(fold, snapshot, es, id, column)
  {
    var e := ById(es, id).value;
    var k :| 0 <= k < |es| && es[k] == e;
    assert es[k].status == REJECTED || !TableGone(snapshot, es[k]);
    hide ById, StaleIds;
  }

  /** Reconciling changes none of these verdicts: it keeps tables, and which entities are rejected. */
  lemma {:induction false} VerdictsKept(fold: Fold, snapshot: Snapshot, es: seq<Entity>, x: Relationship)
    ensures JoinIsTrue(fold, snapshot, ReconciledEntities(snapshot, es), x) == JoinIsTrue(fold, snapshot, es, x)
    ensures JoinUnchecked(fold, snapshot, ReconciledEntities(snapshot, es), x) == JoinUnchecked(fold, snapshot, es, x)
  {
    ByIdReconciled(snapshot, es, x.fromEntityId);
    ByIdReconciled(snapshot, es, x.toEntityId);
    hide ById, ReconciledEntities, ColumnIn;
  }

  /**
   * When a rescan leaves a confirmed relationship that the schema does not bear out: it was confirmed,
   * neither end was found lost, and at an end the table is there without the column, or the entity
   * was rejected and its table is gone.
   */
  lemma {:induction false} UntrueRelationshipExactly(fold: Fold, m: Model, snapshot: Snapshot, i: nat)
    requires i < |m.relationships|
    ensures var x, r := m.relationships[i], Reconciled(fold, m, snapshot);
      r.relationships[i].status == CONFIRMED && !JoinIsTrue(fold, snapshot, r.entities, r.relationships[i])
      <==> x.status == CONFIRMED && EndpointsPresent(m.entities, StaleIds(snapshot, m.entities), x)
           && JoinUnchecked(fold, snapshot, m.entities, x)
  {
    var x, stale := m.relationships[i], StaleIds(snapshot, m.entities);
    VerdictsKept(fold, snapshot, m.entities, x);
    EndpointsReconciled(snapshot, m.entities, stale, x);
    if EndpointsPresent(m.entities, stale, x) {
      EndUntrueExactly(fold, snapshot, m.entities, x.fromEntityId, x.fromColumn);
      EndUntrueExactly(fold, snapshot, m.entities, x.toEntityId, x.toColumn);
    }
    hide EndIsTrue, EndUnchecked, EndpointsPresent, ReconciledEntities, StaleIds;
  }

  lemma {:induction false} EndpointsReconciled(snapshot: Snapshot, es: seq<Entity>, stale: set<nat>, x: Relationship)
    ensures EndpointsPresent(ReconciledEntities(snapshot, es), stale, x) == EndpointsPresent(es, stale, x)
  {
    ByIdReconciled(snapshot, es, x.fromEntityId);
    ByIdReconciled(snapshot, es, x.toEntityId);
    hide ById, ReconciledEntities;
  }
}
