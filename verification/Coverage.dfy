/**
 * Which real tables and columns a discovery covers. Proposals are merged up to case and then looked
 * up as they are written, so the spelling of the most confident one decides.
 */
module Coverage {
  import opened Wrappers
  import opened Sequences
  import opened Merging
  import opened Discovery

  /** The proposal that stands for a table, if any, writes it as the schema does. */
  ghost predicate TableSpelled(fold: Fold, ps: Proposals, t: string) {
    fold(t) in KeysOf(ps.entities, ByTable(fold)) && Best(ps.entities, fold(t), ByTable(fold)).table == t
  }

  /** The proposal that stands for a column, if any, writes its table as the schema does. */
  ghost predicate ColumnSpelled(fold: Fold, ps: Proposals, t: string, c: string) {
    && (fold(t), fold(c)) in KeysOf(ps.attributes, ByColumn(fold))
    && Best(ps.attributes, (fold(t), fold(c)), ByColumn(fold)).table == t
  }

  /** Some attribute of the model is this column of this table. */
  ghost predicate Covers(m: Model, t: string, column: string) {
    exists a, e :: a in m.attributes && a.column == column
      && e in m.entities && e.id == a.entityId && Identifier(e.schema, e.table) == t
  }

  lemma {:induction false} EntityIdsAreProposed(snapshot: Snapshot, ps: seq<EntityProposal>, start: nat, t: string)
    ensures t in EntityIds(snapshot, ps, start) <==>
      FindTable(snapshot.tables, t).Some? && exists i :: 0 <= i < |ps| && ps[i].table == t
  {
    if ps != [] {
      var n := |ps| - 1;
      EntityIdsAreProposed(snapshot, ps[..n], start, t);
      assert forall i :: 0 <= i < n ==> ps[..n][i] == ps[i];
      hide FindTable, BuiltEntities;
    }
  }

  /** Every attribute comes from a proposal about a column of a table with an id. */
  lemma {:induction false} AttributeIsProposed(
    fold: Fold, snapshot: Snapshot, ps: seq<AttributeProposal>, ids: map<string, nat>, start: nat, a: Attribute)
    returns (i: nat)
    requires a in BuiltAttributes(fold, snapshot, ps, ids, start)
    ensures i < |ps| && ps[i].table in ids && a.entityId == ids[ps[i].table]
    ensures ColumnIn(fold, snapshot, ps[i].table, ps[i].column).Some?
    ensures ColumnIn(fold, snapshot, ps[i].table, ps[i].column).value.name == a.column
    decreases |ps|
  {
    hide ColumnIn;
    var n := |ps| - 1;
    var before, all := BuiltAttributes(fold, snapshot, ps[..n], ids, start), BuiltAttributes(fold, snapshot, ps, ids, start);
    if a in before {
      i := AttributeIsProposed(fold, snapshot, ps[..n], ids, start, a);
    } else {
      assert a == all[|all| - 1];
      i := n;
    }
  }

  /** Of the merged proposals, the ones with an identity are the one that stands for it. */
  lemma {:induction false} MergedIsBest<P, K>(items: seq<P>, k: K, p: P, r: Ranking<P, K>)
    requires r.key(p) == k
    ensures p in Deduplicated(items, r) <==> k in KeysOf(items, r) && p == Best(items, k, r)
  {
    DeduplicatedAt(items, r);
    DistinctElements(KeysOf(items, r));
    var keys, d := Distinct(KeysOf(items, r)), Deduplicated(items, r);
    hide Deduplicated, Best, Distinct;
    if k in keys {
      var i :| 0 <= i < |keys| && keys[i] == k;
      assert d[i] in d;
    }
  }

  lemma {:induction false} TableHasIdExactly(fold: Fold, snapshot: Snapshot, ps: Proposals, start: nat, t: string)
    requires FindTable(snapshot.tables, t).Some?
    ensures t in EntityIds(snapshot, Once(fold, ps).entities, start) <==> TableSpelled(fold, ps, t)
  {
    var r, merged := ByTable(fold), Once(fold, ps).entities;
    EntityIdsAreProposed(snapshot, merged, start, t);
    hide EntityIds, FindTable;
    if i :| 0 <= i < |merged| && merged[i].table == t {
      assert merged[i] in merged;
      MergedIsBest(ps.entities, fold(t), merged[i], r);
    }
    if TableSpelled(fold, ps, t) {
      var p := Best(ps.entities, fold(t), r);
      MergedIsBest(ps.entities, fold(t), p, r);
      var i :| 0 <= i < |merged| && merged[i] == p;
    }
    hide Deduplicated, Best;
  }

  /** The id under a table's name is that of an entity of the table, */
  lemma {:induction false} OwnerIsThere(snapshot: Snapshot, ps: seq<EntityProposal>, start: nat, t: string) returns (e: Entity)
    requires t in EntityIds(snapshot, ps, start)
    ensures e in BuiltEntities(snapshot, ps, start) && e.id == EntityIds(snapshot, ps, start)[t]
    ensures Identifier(e.schema, e.table) == t
  {
    var entities, ids := BuiltEntities(snapshot, ps, start), EntityIds(snapshot, ps, start);
    EntitiesAreReal(snapshot, ps, start);
    EntityOfId(snapshot, entities, ids, t);
    hide BuiltEntities, EntityIds, IdsAreOurs, FindTable, Identifier;
    var k :| 0 <= k < |entities| && entities[k].id == ids[t] && Identifier(entities[k].schema, entities[k].table) == t;
    e := entities[k];
  }

  /** and of no other. */
  lemma {:induction false} OwnerIsOne(snapshot: Snapshot, ps: seq<EntityProposal>, start: nat, a: Entity, b: Entity)
    requires a in BuiltEntities(snapshot, ps, start) && b in BuiltEntities(snapshot, ps, start) && a.id == b.id
    ensures a == b
  {
    var entities := BuiltEntities(snapshot, ps, start);
    EntitiesAreReal(snapshot, ps, start);
    hide BuiltEntities, EntityIds, IdsAreOurs, FindTable, Identifier;
    var i :| 0 <= i < |entities| && entities[i] == a;
    var j :| 0 <= j < |entities| && entities[j] == b;
  }

  lemma {:induction false} SameColumn(fold: Fold, snapshot: Snapshot, t: string, c: string, d: string)
    requires fold(c) == fold(d)
    ensures ColumnIn(fold, snapshot, t, c) == ColumnIn(fold, snapshot, t, d)
  {
    var table := FindTable(snapshot.tables, t);
    if table.Some? {
      FindColumnByFold(fold, table.value.columns, c, d);
    }
  }

  lemma {:induction false} ColumnFolds(fold: Fold, snapshot: Snapshot, t: string, c: string)
    requires ColumnIn(fold, snapshot, t, c).Some?
    ensures fold(ColumnIn(fold, snapshot, t, c).value.name) == fold(c) && FindTable(snapshot.tables, t).Some?
  {
  }

  /** A covered column was proposed under its table's own name, and the table has an id. */
  lemma {:induction false} CoveredIsProposed(
    fold: Fold, snapshot: Snapshot, ps: Proposals, start: nat, t: string, name: string) returns (q: AttributeProposal)
    requires Covers(Built(fold, snapshot, ps, start), t, name)
    ensures q in ps.attributes && q.table == t && t in EntityIds(snapshot, ps.entities, start)
    ensures ColumnIn(fold, snapshot, t, q.column).Some? && ColumnIn(fold, snapshot, t, q.column).value.name == name
  {
    var entities, ids := BuiltEntities(snapshot, ps.entities, start), EntityIds(snapshot, ps.entities, start);
    var attributes := BuiltAttributes(fold, snapshot, ps.attributes, ids, start + |entities|);
    hide ColumnIn, BuiltEntities, EntityIds, BuiltAttributes, BuiltRelationships, Identifier;
    var a, e :| a in attributes && a.column == name
      && e in entities && e.id == a.entityId && Identifier(e.schema, e.table) == t;
    var i := AttributeIsProposed(fold, snapshot, ps.attributes, ids, start + |entities|, a);
    q := ps.attributes[i];
    var owner := OwnerIsThere(snapshot, ps.entities, start, q.table);
    OwnerIsOne(snapshot, ps.entities, start, owner, e);
  }

  lemma {:induction false} CoveredIsSpelled(
    fold: Fold, snapshot: Snapshot, ps: Proposals, start: nat, t: string, c: string)
    requires ColumnIn(fold, snapshot, t, c).Some?
    requires Covers(Built(fold, snapshot, Once(fold, ps), start), t, ColumnIn(fold, snapshot, t, c).value.name)
    ensures TableSpelled(fold, ps, t) && ColumnSpelled(fold, ps, t, c)
  {
    hide ColumnIn, Built, EntityIds, Deduplicated, Best, FindTable, TableSpelled, Identifier, Covers;
    var q := CoveredIsProposed(fold, snapshot, Once(fold, ps), start, t, ColumnIn(fold, snapshot, t, c).value.name);
    ColumnFolds(fold, snapshot, t, c);
    ColumnFolds(fold, snapshot, t, q.column);
    TableHasIdExactly(fold, snapshot, ps, start, t);
    MergedIsBest(ps.attributes, (fold(t), fold(c)), q, ByColumn(fold));
  }

  lemma {:induction false} SpelledIsCovered(
    fold: Fold, snapshot: Snapshot, ps: Proposals, start: nat, t: string, c: string)
    requires ColumnIn(fold, snapshot, t, c).Some? && TableSpelled(fold, ps, t) && ColumnSpelled(fold, ps, t, c)
    ensures Covers(Built(fold, snapshot, Once(fold, ps), start), t, ColumnIn(fold, snapshot, t, c).value.name)
  {
    var merged := Once(fold, ps);
    var entities, ids := BuiltEntities(snapshot, merged.entities, start), EntityIds(snapshot, merged.entities, start);
    hide ColumnIn, BuiltEntities, EntityIds, BuiltAttributes, BuiltRelationships, Deduplicated, Best, FindTable,
      TableSpelled, Identifier;
    ColumnFolds(fold, snapshot, t, c);
    TableHasIdExactly(fold, snapshot, ps, start, t);
    var q := Best(ps.attributes, (fold(t), fold(c)), ByColumn(fold));
    MergedIsBest(ps.attributes, (fold(t), fold(c)), q, ByColumn(fold));
    SameColumn(fold, snapshot, t, c, q.column);
    var i :| 0 <= i < |merged.attributes| && merged.attributes[i] == q;
    RealAttributeIsKept(fold, snapshot, merged.attributes, ids, start + |entities|, i);
    var e := OwnerIsThere(snapshot, merged.entities, start, t);
  }

  /**
   * A real column ends up in the model exactly when the proposals that stand for its table and for
   * it, each the earliest of the most confident up to case, write the table as the schema does.
   */
  lemma {:induction false} ColumnIsCoveredExactly(
    fold: Fold, snapshot: Snapshot, ps: Proposals, start: nat, t: string, c: string)
    requires ColumnIn(fold, snapshot, t, c).Some?
    ensures Covers(Built(fold, snapshot, Once(fold, ps), start), t, ColumnIn(fold, snapshot, t, c).value.name)
       <==> TableSpelled(fold, ps, t) && ColumnSpelled(fold, ps, t, c)
  {
    hide *;
    if Covers(Built(fold, snapshot, Once(fold, ps), start), t, ColumnIn(fold, snapshot, t, c).value.name) {
      CoveredIsSpelled(fold, snapshot, ps, start, t, c);
    }
    if TableSpelled(fold, ps, t) && ColumnSpelled(fold, ps, t, c) {
      SpelledIsCovered(fold, snapshot, ps, start, t, c);
    }
  }

  /** The input that loses a table: the same table proposed again, in another case, with more confidence. */
  lemma {:induction false} RecasingDropsTheTable(
    fold: Fold, snapshot: Snapshot, t: string, recased: string, c: string, start: nat)
    requires fold(t) == fold(recased) && recased != t && ColumnIn(fold, snapshot, t, c).Some?
    ensures var found := EntityProposal(t, "Staff", 0.8);
      var again := EntityProposal(recased, "Staff", 0.9);
      var column := AttributeProposal(t, c, "Name", false, 0.8);
      var name := ColumnIn(fold, snapshot, t, c).value.name;
      && Covers(Built(fold, snapshot, Once(fold, Proposals([found], [column], [])), start), t, name)
      && !Covers(Built(fold, snapshot, Once(fold, Proposals([found, again], [column], [])), start), t, name)
  {
    var r := ByTable(fold);
    var found, again := EntityProposal(t, "Staff", 0.8), EntityProposal(recased, "Staff", 0.9);
    var column := AttributeProposal(t, c, "Name", false, 0.8);
    var one, two := Proposals([found], [column], []), Proposals([found, again], [column], []);
    ColumnIsCoveredExactly(fold, snapshot, one, start, t, c);
    ColumnIsCoveredExactly(fold, snapshot, two, start, t, c);
    BestOfOne(found, r);
    BestOfOne(column, ByColumn(fold));
    assert [found, again][..1] == [found];
    assert KeysOf([found, again], r)[0] == fold(t);
    hide ColumnIn, Built, Once, Covers;
    assert Best([found, again], fold(t), r) == again;
  }

  lemma {:induction false} BestOfOne<P, K>(p: P, r: Ranking<P, K>)
    ensures r.key(p) in KeysOf([p], r) && Best([p], r.key(p), r) == p
  {
    assert KeysOf([p], r)[0] == r.key(p);
    assert [p][..0] == [];
    assert KeysOf([p][..0], r) == [];
  }
}
